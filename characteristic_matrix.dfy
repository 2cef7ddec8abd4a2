/**
 * The vocabulary of a list of documents (every whitespace-separated word,
 * sorted, once each) and the 0/1 characteristic matrix with one row per
 * document and one column per vocabulary word.
 */
module CharacteristicMatrix {
  import opened Outcomes
  import opened Strings

  predicate StrictlySorted(ws: seq<string>)
  {
    forall i, j :: 0 <= i < j < |ws| ==> LexLess(ws[i], ws[j])
  }

  // ---------------------------------------------------------------------------
  // The vocabulary
  // ---------------------------------------------------------------------------

  /** w into a sorted list, once. */
  function Insert(ws: seq<string>, w: string): (r: seq<string>)
    ensures forall x :: x in r <==> x in ws || x == w
  {
    if |ws| == 0 then [w]
    else if w == ws[0] then ws
    else if LexLess(w, ws[0]) then [w] + ws
    else [ws[0]] + Insert(ws[1..], w)
  }

  lemma {:induction false} InsertKeepsSorted(ws: seq<string>, w: string)
    requires StrictlySorted(ws)
    ensures StrictlySorted(Insert(ws, w))
  {
    if |ws| == 0 || w == ws[0] {
    } else if LexLess(w, ws[0]) {
      forall k | 1 <= k < |ws|
        ensures LexLess(w, ws[k])
      {
        LexLessTransitive(w, ws[0], ws[k]);
      }
    } else {
      LexLessTotal(w, ws[0]);
      InsertKeepsSorted(ws[1..], w);
      var rest := Insert(ws[1..], w);
      forall k | 0 <= k < |rest|
        ensures LexLess(ws[0], rest[k])
      {
        assert rest[k] in rest;
      }
    }
  }

  lemma NotBoth(a: string, b: string)
    ensures !(LexLess(a, b) && LexLess(b, a))
  {
    if LexLess(a, b) {
      LexLessAsymmetric(a, b);
    }
  }

  lemma HeadIn(ws: seq<string>)
    ensures |ws| > 0 ==> ws[0] in ws
  {
  }

  /** Two strictly sorted lists with the same members are the same list: the sorted vocabulary is unique. */
  lemma {:induction false} SortedUnique(xs: seq<string>, ys: seq<string>)
    requires StrictlySorted(xs) && StrictlySorted(ys)
    requires forall w :: w in xs <==> w in ys
    ensures xs == ys
  {
    if |xs| == 0 || |ys| == 0 {
      HeadIn(xs);
      HeadIn(ys);
    } else {
      var i := IndexOf(ys, xs[0]);
      var j := IndexOf(xs, ys[0]);
      assert ys[0] == ys[i] || LexLess(ys[0], ys[i]);
      assert xs[0] == xs[j] || LexLess(xs[0], xs[j]);
      NotBoth(xs[0], ys[0]);
      assert xs[0] == ys[0];
      forall w
        ensures w in xs[1..] <==> w in ys[1..]
      {
        LexLessIrreflexive(w);
        if w in xs[1..] {
          var k :| 1 <= k < |xs| && xs[k] == w;
          assert LexLess(xs[0], w);
          var m := IndexOf(ys, w);
          assert ys[1..][m - 1] == w;
        }
        if w in ys[1..] {
          var k :| 1 <= k < |ys| && ys[k] == w;
          assert LexLess(ys[0], w);
          var m := IndexOf(xs, w);
          assert xs[1..][m - 1] == w;
        }
      }
      SortedUnique(xs[1..], ys[1..]);
      assert xs == [xs[0]] + xs[1..] && ys == [ys[0]] + ys[1..];
    }
  }

  /** `sorted(list(words))`. */
  method SortedWords(words: set<string>) returns (ws: seq<string>)
    ensures StrictlySorted(ws)
    ensures forall w :: w in ws <==> w in words
  {
    ws := [];
    var rest := words;
    while rest != {}
      invariant rest <= words
      invariant StrictlySorted(ws)
      invariant forall w :: w in ws <==> w in words - rest
      decreases |rest|
    {
      var w :| w in rest;
      InsertKeepsSorted(ws, w);
      ws := Insert(ws, w);
      rest := rest - {w};
    }
  }

  /** A word of some document. */
  predicate Occurs(documents: seq<string>, w: string)
  {
    exists i :: 0 <= i < |documents| && w in Words(documents[i])
  }

  /** `get_unique_words`: the words of all documents, sorted, each once. */
  method GetUniqueWords(documents: seq<string>) returns (uniqueWords: seq<string>)
    ensures StrictlySorted(uniqueWords)
    ensures forall w :: w in uniqueWords <==> Occurs(documents, w)
  {
    var unique: set<string> := {};
    for i := 0 to |documents|
      invariant forall w :: w in unique <==> exists k :: 0 <= k < i && w in Words(documents[k])
    {
      unique := unique + set w | w in Words(documents[i]);
    }
    uniqueWords := SortedWords(unique);
  }

  // ---------------------------------------------------------------------------
  // The matrix
  // ---------------------------------------------------------------------------

  /** `list.index`: the first position of w. */
  function IndexOf(ws: seq<string>, w: string): (j: nat)
    requires w in ws
    ensures j < |ws| && ws[j] == w
    ensures forall k :: 0 <= k < j ==> ws[k] != w
  {
    if ws[0] == w then 0 else 1 + IndexOf(ws[1..], w)
  }

  /** Column j is the first column holding its word. */
  predicate FirstColumn(ws: seq<string>, j: nat)
    requires j < |ws|
  {
    forall k :: 0 <= k < j ==> ws[k] != ws[j]
  }

  /** Entry (i, j): 1 when document i holds the word of column j and that column is the one `index` finds. */
  function Entry(documents: seq<string>, uniqueWords: seq<string>, i: nat, j: nat): (e: int)
    requires i < |documents| && j < |uniqueWords|
    ensures e == 0 || e == 1
    ensures e == 1 <==> uniqueWords[j] in Words(documents[i]) && IndexOf(uniqueWords, uniqueWords[j]) == j
  {
    if uniqueWords[j] in Words(documents[i]) && FirstColumn(uniqueWords, j) then 1 else 0
  }

  /**
   * Row i of the matrix: `char_matrix[i, index(word)] = 1` for each word of the
   * document in turn; the first word missing from the vocabulary stops the fill.
   */
  method FillRow(matrix: array2<int>, i: nat, ws: seq<string>, uniqueWords: seq<string>) returns (missing: Option<string>)
    requires i < matrix.Length0 && matrix.Length1 == |uniqueWords|
    requires forall j :: 0 <= j < |uniqueWords| ==> matrix[i, j] == 0
    modifies matrix
    ensures forall i', j :: 0 <= i' < matrix.Length0 && i' != i && 0 <= j < matrix.Length1 ==> matrix[i', j] == old(matrix[i', j])
    ensures missing.Some? ==> missing.value in ws && missing.value !in uniqueWords
    ensures missing.Some? ==> forall k :: 0 <= k < IndexOf(ws, missing.value) ==> ws[k] in uniqueWords
    ensures missing.None? ==> forall w :: w in ws ==> w in uniqueWords
    ensures missing.None? ==> forall j :: 0 <= j < |uniqueWords| ==>
              matrix[i, j] == if uniqueWords[j] in ws && FirstColumn(uniqueWords, j) then 1 else 0
  {
    for k := 0 to |ws|
      invariant forall i', j :: 0 <= i' < matrix.Length0 && i' != i && 0 <= j < matrix.Length1 ==> matrix[i', j] == old(matrix[i', j])
      invariant forall j :: 0 <= j < |uniqueWords| ==>
                  matrix[i, j] == if uniqueWords[j] in ws[..k] && FirstColumn(uniqueWords, j) then 1 else 0
      invariant forall k' :: 0 <= k' < k ==> ws[k'] in uniqueWords
    {
      var word := ws[k];
      if word !in uniqueWords {
        assert IndexOf(ws, word) <= k;
        return Some(word);
      }
      var j := IndexOf(uniqueWords, word);
      matrix[i, j] := 1;
      assert ws[..k + 1] == ws[..k] + [word];
    }
    assert ws[..|ws|] == ws;
    return None;
  }

  /** Word w of document d is where `index` first raises: all words met before it are known. */
  predicate FirstMissingIn(documents: seq<string>, uniqueWords: seq<string>, d: nat, w: string)
    requires d < |documents|
  {
    && w in Words(documents[d]) && w !in uniqueWords
    && (forall k, v :: 0 <= k < d && v in Words(documents[k]) ==> v in uniqueWords)
    && (forall k :: 0 <= k < IndexOf(Words(documents[d]), w) ==> Words(documents[d])[k] in uniqueWords)
  }

  /**
   * `create_characteristic_matrix`. A word missing from the vocabulary makes
   * `index` raise ValueError: `missing` names the first one met.
   */
  method CreateCharacteristicMatrix(documents: seq<string>, uniqueWords: seq<string>)
    returns (matrix: array2<int>, missing: Option<string>)
    ensures fresh(matrix)
    ensures matrix.Length0 == |documents| && matrix.Length1 == |uniqueWords|
    ensures missing.Some? ==> Occurs(documents, missing.value) && missing.value !in uniqueWords
    // The missing word is the first one met: every earlier document, and every earlier
    // word of its own document, is in the vocabulary.
    ensures missing.Some? ==> exists d :: 0 <= d < |documents| && FirstMissingIn(documents, uniqueWords, d, missing.value)
    ensures missing.None? ==> forall w :: Occurs(documents, w) ==> w in uniqueWords
    ensures missing.None? ==> forall i, j :: 0 <= i < |documents| && 0 <= j < |uniqueWords| ==>
              matrix[i, j] == Entry(documents, uniqueWords, i, j)
  {
    matrix := new int[|documents|, |uniqueWords|]((_, _) => 0);
    for i := 0 to |documents|
      invariant forall i', j :: 0 <= i' < i && 0 <= j < |uniqueWords| ==> matrix[i', j] == Entry(documents, uniqueWords, i', j)
      invariant forall i', j :: i <= i' < |documents| && 0 <= j < |uniqueWords| ==> matrix[i', j] == 0
      invariant forall k, w :: 0 <= k < i && w in Words(documents[k]) ==> w in uniqueWords
    {
      missing := FillRow(matrix, i, Words(documents[i]), uniqueWords);
      if missing.Some? {
        assert FirstMissingIn(documents, uniqueWords, i, missing.value);
        return;
      }
    }
    return matrix, None;
  }

  /**
   * On a vocabulary without repeats every column is its word's first, so entry
   * (i, j) is 1 exactly when document i holds word j, however often.
   */
  lemma EntryOfDistinctWords(documents: seq<string>, uniqueWords: seq<string>, i: nat, j: nat)
    requires StrictlySorted(uniqueWords) && i < |documents| && j < |uniqueWords|
    ensures Entry(documents, uniqueWords, i, j) == 1 <==> uniqueWords[j] in Words(documents[i])
    ensures Entry(documents, uniqueWords, i, j) == 0 <==> uniqueWords[j] !in Words(documents[i])
  {
    forall k | 0 <= k < j
      ensures uniqueWords[k] != uniqueWords[j]
    {
      LexLessIrreflexive(uniqueWords[j]);
    }
  }
}
