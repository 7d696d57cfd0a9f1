/** Which option owns a short letter, and the string the help code packs the letters into. */
module ArgpLetters {
  import opened Seqs
  import opened ArgpOptions

  /** The letters of a list of options, each at its first short option. */
  function Letters(opts: seq<Opt>): seq<int> {
    if opts == [] then []
    else
      var before, o := Letters(opts[..|opts| - 1]), opts[|opts| - 1];
      if IsShort(o) && o.key !in before then before + [o.key] else before
  }

  /** Option `k` is the first short option with its key. */
  predicate Owner(opts: seq<Opt>, k: int) {
    0 <= k < |opts| && IsShort(opts[k]) && forall j :: 0 <= j < k && opts[j].key == opts[k].key ==> !IsShort(opts[j])
  }

  lemma {:induction false} LettersMeaning(opts: seq<Opt>, c: int)
    ensures c in Letters(opts) <==> exists k :: 0 <= k < |opts| && IsShort(opts[k]) && opts[k].key == c
  {
    if opts != [] {
      var n := |opts| - 1;
      LettersMeaning(opts[..n], c);
      assert forall k :: 0 <= k < n ==> opts[..n][k] == opts[k];
      if c in Letters(opts[..n]) {
        var k :| 0 <= k < n && IsShort(opts[..n][k]) && opts[..n][k].key == c;
        assert IsShort(opts[k]) && opts[k].key == c;
      }
    }
  }

  /** The packed letters are distinct. */
  lemma {:induction false} LettersDistinct(opts: seq<Opt>)
    ensures NoDup(Letters(opts))
  {
    if opts != [] {
      var n := |opts| - 1;
      LettersDistinct(opts[..n]);
      if IsShort(opts[n]) && opts[n].key !in Letters(opts[..n]) {
        NoDupSnoc(Letters(opts[..n]), opts[n].key);
      }
    }
  }

  lemma {:induction false} LettersPrefix(opts: seq<Opt>, k: nat)
    requires k <= |opts|
    ensures Letters(opts[..k]) <= Letters(opts)
    decreases |opts|
  {
    if k == |opts| {
      assert opts[..k] == opts;
    } else {
      var n := |opts| - 1;
      LettersPrefix(opts[..n], k);
      assert opts[..n][..k] == opts[..k];
    }
  }

  lemma OwnerLetter(opts: seq<Opt>, k: nat)
    requires k < |opts|
    ensures Owner(opts, k) <==> IsShort(opts[k]) && opts[k].key !in Letters(opts[..k])
    ensures Letters(opts[..k + 1]) == Letters(opts[..k]) + (if Owner(opts, k) then [opts[k].key] else [])
  {
    LettersMeaning(opts[..k], opts[k].key);
    assert forall j :: 0 <= j < k ==> opts[..k][j] == opts[j];
    assert opts[..k + 1][..k] == opts[..k];
  }

  /** The letter at position `so`, with the NUL behind the last one. */
  function LetterAt(s: seq<int>, so: nat): int {
    if so < |s| then s[so] else 0
  }

  /** The letter under the cursor is an option's own exactly when the option is its owner. */
  lemma CursorLetter(opts: seq<Opt>, k: nat)
    requires k < |opts| && IsShort(opts[k])
    ensures LetterAt(Letters(opts), |Letters(opts[..k])|) == opts[k].key <==> Owner(opts, k)
  {
    var before, all := Letters(opts[..k]), Letters(opts);
    OwnerLetter(opts, k);
    LettersPrefix(opts, k);
    LettersPrefix(opts, k + 1);
    if Owner(opts, k) {
      assert all[|before|] == Letters(opts[..k + 1])[|before|];
    } else {
      LettersDistinct(opts);
      NoDupIndices(all);
      var j :| 0 <= j < |before| && before[j] == opts[k].key;
      assert all[j] == opts[k].key;
    }
  }

  lemma LettersUnion(a: seq<Opt>, b: seq<Opt>, c: int)
    ensures c in Letters(a + b) <==> c in Letters(a) || c in Letters(b)
  {
    hide Letters;
    LettersMeaning(a, c);
    LettersMeaning(b, c);
    LettersMeaning(a + b, c);
    assert forall k :: 0 <= k < |a| ==> (a + b)[k] == a[k];
    assert forall k :: 0 <= k < |b| ==> (a + b)[|a| + k] == b[k];
  }

  /** What one more option adds to the letters: its own, unless an option of either list has it before. */
  lemma MergeStep(mine: seq<Opt>, theirs: seq<Opt>, m: nat)
    requires m < |theirs|
    ensures Letters(mine + theirs[..m + 1]) == Letters(mine + theirs[..m]) +
      (if Owner(theirs, m) && theirs[m].key !in Letters(mine) then [theirs[m].key] else [])
  {
    hide Letters;
    var x := mine + theirs[..m + 1];
    var n := |mine| + m;
    assert x[..n] == mine + theirs[..m] && x[..n + 1] == x && x[n] == theirs[m];
    OwnerLetter(x, n);
    OwnerLetter(theirs, m);
    LettersUnion(mine, theirs[..m], theirs[m].key);
  }
}
