/**
The help side of argp: which option owns a short letter. `make_hol` and `hol_append` pack the letters
into one string, each entry keeping a cursor into it, and the walk from that cursor must find exactly
the letters the entry owns, the same ones the parser would resolve to it.
*/
module ArgpHelp {
  import opened Options
  import opened Seqs
  import opened ArgpOptions
  import opened ArgpLetters
  import opened ArgpTree

  // ---------------------------------------------------------------- option lists

  /** An option with its aliases, and the index in the packed letters where its own begin. */
  datatype HolEntry = HolEntry(opts: seq<Opt>, shorts: nat)

  /** The options of a list of entries in order. */
  function Listed(entries: seq<HolEntry>): seq<Opt> {
    if entries == [] then [] else Listed(entries[..|entries| - 1]) + entries[|entries| - 1].opts
  }

  ghost predicate OneEntry(opts: seq<Opt>) {
    opts != [] && !opts[0].alias && forall k :: 1 <= k < |opts| ==> opts[k].alias
  }

  /** Each entry is an option with its aliases, its cursor where the letters before it end. */
  ghost predicate Placed(entries: seq<HolEntry>, before: seq<Opt>) {
    entries == [] ||
    var n := |entries| - 1;
    && OneEntry(entries[n].opts) && Placed(entries[..n], before)
    && entries[n].shorts == |Letters(before + Listed(entries[..n]))|
  }

  lemma PlacedSnoc(entries: seq<HolEntry>, before: seq<Opt>, e: HolEntry)
    requires Placed(entries, before) && OneEntry(e.opts) && e.shorts == |Letters(before + Listed(entries))|
    ensures Placed(entries + [e], before) && Listed(entries + [e]) == Listed(entries) + e.opts
  {
    assert (entries + [e])[..|entries|] == entries;
  }

  lemma {:induction false} PlacedAt(entries: seq<HolEntry>, n: nat)
    requires Placed(entries, []) && n < |entries|
    ensures OneEntry(entries[n].opts) && entries[n].shorts == |Letters(Listed(entries[..n]))|
    ensures Listed(entries[..n]) + entries[n].opts <= Listed(entries)
    decreases |entries|
  {
    var m := |entries| - 1;
    assert [] + Listed(entries[..m]) == Listed(entries[..m]);
    if n < m {
      PlacedAt(entries[..m], n);
      assert entries[..m][..n] == entries[..n] && entries[..m][n] == entries[n];
    }
  }

  /** `find_char`. */
  method FindChar(ch: int, s: seq<int>, end: nat) returns (found: bool)
    requires end <= |s|
    ensures found <==> ch in s[..end]
  {
    var i := 0;
    while i < end
      invariant i <= end && ch !in s[..i]
    {
      if s[i] == ch { return true; }
      i := i + 1;
    }
    return false;
  }

  /** The inner loop of `make_hol`: one option and the aliases behind it. */
  method PackEntry(opts: seq<Opt>, from: nat, letters: seq<int>) returns (o: nat, so: seq<int>)
    requires from < |opts| && !opts[from].alias && letters == Letters(opts[..from])
    ensures from < o <= |opts| && (o < |opts| ==> !opts[o].alias)
    ensures OneEntry(opts[from..o]) && so == Letters(opts[..o])
  {
    o, so := from, letters;
    while o == from || (o < |opts| && opts[o].alias)
      invariant from <= o <= |opts| && so == Letters(opts[..o])
      invariant forall k :: from < k < o ==> opts[k].alias
      decreases |opts| - o
    {
      var used := FindChar(opts[o].key, so, |so|);
      assert so[..|so|] == so && opts[..o + 1][..o] == opts[..o];
      if IsShort(opts[o]) && !used {
        so := so + [opts[o].key];
      }
      o := o + 1;
    }
  }

  /** The inner loop of `hol_append`, walking the letters of the appended list along its options. */
  method MergeEntry(opts: seq<Opt>, letters: seq<int>, holLen: nat, more: seq<int>, cursor: nat,
                    ghost mine: seq<Opt>, ghost theirs: seq<Opt>, ghost from: nat)
    returns (so: seq<int>, moreSo: nat)
    requires from + |opts| <= |theirs| && opts == theirs[from..from + |opts|]
    requires letters == Letters(mine + theirs[..from]) && holLen == |Letters(mine)|
    requires more == Letters(theirs) && cursor == |Letters(theirs[..from])|
    ensures so == Letters(mine + theirs[..from + |opts|]) && moreSo == |Letters(theirs[..from + |opts|])|
  {
    hide Letters;
    so, moreSo := letters, cursor;
    for k := 0 to |opts|
      invariant so == Letters(mine + theirs[..from + k]) && moreSo == |Letters(theirs[..from + k])|
    {
      var opt, ch := opts[k], LetterAt(more, moreSo);
      ghost var x := mine + theirs[..from + k];
      LettersPrefix(x, |mine|);
      assert x[..|mine|] == mine;
      MergeStep(mine, theirs, from + k);
      OwnerLetter(theirs, from + k);
      if IsShort(opt) { CursorLetter(theirs, from + k); }
      if IsShort(opt) && ch == opt.key {
        var shadowed := FindChar(ch, so, holLen);
        assert so[..holLen] == Letters(mine);
        if !shadowed {
          so := so + [ch];
        }
        moreSo := moreSo + 1;
      }
    }
  }

  lemma ListedSnoc(entries: seq<HolEntry>, n: nat)
    requires n < |entries|
    ensures Listed(entries[..n + 1]) == Listed(entries[..n]) + entries[n].opts
  {
    assert entries[..n + 1][..n] == entries[..n];
  }

  lemma MergePlaced(list: seq<HolEntry>, mine: seq<Opt>, more: seq<HolEntry>, left: nat)
    requires Placed(list, []) && Placed(more, []) && left < |more| && Listed(list) == mine + Listed(more[..left])
    ensures var next := list + [HolEntry(more[left].opts, |Letters(Listed(list))|)];
      Placed(next, []) && Listed(next) == mine + Listed(more[..left + 1])
  {
    hide Letters, Placed, Listed, OneEntry;
    PlacedAt(more, left);
    ListedSnoc(more, left);
    EmptyFirst(Listed(list));
    PlacedSnoc(list, [], HolEntry(more[left].opts, |Letters(Listed(list))|));
    Regroup(mine, Listed(more[..left]), more[left].opts);
  }

  lemma EmptyFirst(s: seq<Opt>)
    ensures [] + s == s
  {
  }

  lemma Regroup(a: seq<Opt>, b: seq<Opt>, c: seq<Opt>)
    ensures (a + b) + c == a + (b + c)
  {
  }

  lemma MergeSlices(more: seq<HolEntry>, left: nat)
    requires Placed(more, []) && left < |more|
    ensures var all, done, opts := Listed(more), Listed(more[..left]), more[left].opts;
      && |done| + |opts| <= |all| && all[..|done|] == done && all[|done|..|done| + |opts|] == opts
      && all[..|done| + |opts|] == Listed(more[..left + 1])
  {
    hide Letters, Placed, Listed, OneEntry;
    PlacedAt(more, left);
    ListedSnoc(more, left);
  }

  lemma ListedNil(entries: seq<HolEntry>)
    ensures Listed(entries[..0]) == [] && Letters([]) == []
  {
  }

  /** The merging part of `hol_append`. */
  method MergeAll(mine: seq<HolEntry>, letters: seq<int>, more: seq<HolEntry>, theirs: seq<int>)
    returns (list: seq<HolEntry>, so: seq<int>)
    requires Placed(mine, []) && letters == Letters(Listed(mine))
    requires Placed(more, []) && theirs == Letters(Listed(more))
    ensures Placed(list, []) && Listed(list) == Listed(mine) + Listed(more) && so == Letters(Listed(list))
  {
    hide Letters, Placed, Listed, OneEntry;
    ListedNil(more);
    assert Listed(mine) + [] == Listed(mine);
    list, so := mine, letters;
    var moreSo := 0;
    for left := 0 to |more|
      invariant Placed(list, []) && Listed(list) == Listed(mine) + Listed(more[..left])
      invariant so == Letters(Listed(list)) && moreSo == |Letters(Listed(more[..left]))|
    {
      var e := HolEntry(more[left].opts, |so|);
      MergeSlices(more, left);
      MergePlaced(list, Listed(mine), more, left);
      so, moreSo := MergeEntry(e.opts, so, |letters|, theirs, moreSo, Listed(mine), Listed(more),
        |Listed(more[..left])|);
      list := list + [e];
    }
    assert more[..|more|] == more;
  }

  lemma FillStep(list: seq<HolEntry>, opts: seq<Opt>, from: nat, o: nat)
    requires from < o <= |opts| && Placed(list, []) && Listed(list) == opts[..from] && OneEntry(opts[from..o])
    ensures var next := list + [HolEntry(opts[from..o], |Letters(opts[..from])|)];
      Placed(next, []) && Listed(next) == opts[..o]
  {
    hide Letters, Placed, Listed, OneEntry;
    assert [] + Listed(list) == Listed(list);
    PlacedSnoc(list, [], HolEntry(opts[from..o], |Letters(opts[..from])|));
    assert opts[..from] + opts[from..o] == opts[..o];
  }

  lemma FillStart(opts: seq<Opt>)
    ensures Placed([], []) && Listed([]) == opts[..0] && Letters(opts[..0]) == []
  {
  }

  /** The filling loop of `make_hol`. */
  method FillEntries(opts: seq<Opt>) returns (list: seq<HolEntry>, so: seq<int>)
    requires opts != [] ==> !opts[0].alias
    ensures Placed(list, []) && Listed(list) == opts && so == Letters(opts)
  {
    hide Letters, Placed, Listed, OneEntry;
    list, so := [], [];
    var o := 0;
    FillStart(opts);
    while o < |opts|
      invariant o <= |opts| && (o < |opts| ==> !opts[o].alias)
      invariant Placed(list, []) && Listed(list) == opts[..o] && so == Letters(opts[..o])
    {
      var from, shorts := o, |so|;
      o, so := PackEntry(opts, from, so);
      FillStep(list, opts, from, o);
      list := list + [HolEntry(opts[from..o], shorts)];
    }
    assert opts[..o] == opts;
  }

  class Hol {
    var entries: seq<HolEntry>
    var shortOptions: seq<int>

    ghost predicate Valid()
      reads this
    {
      Placed(entries, []) && shortOptions == Letters(Listed(entries))
    }

    /** `make_hol`. */
    constructor (opts: seq<Opt>)
      requires opts != [] ==> !opts[0].alias
      ensures Valid() && Listed(entries) == opts
    {
      var list, so := FillEntries(opts);
      entries, shortOptions := list, so;
    }

    /** `hol_append`: letters this list already has shadow those of `more`. */
    method Append(more: Hol)
      requires Valid() && more.Valid() && more != this
      modifies this
      ensures Valid() && Listed(entries) == old(Listed(entries)) + Listed(more.entries)
    {
      if more.entries == [] {
        assert Listed(entries) + [] == Listed(entries);
        return;
      }
      if entries == [] {
        entries, shortOptions := more.entries, more.shortOptions;
        assert [] + Listed(entries) == Listed(entries);
        return;
      }
      entries, shortOptions := MergeAll(entries, shortOptions, more.entries, more.shortOptions);
    }
  }

  // ---------------------------------------------------------------- the whole tree

  /** In no options array does an alias come first. */
  ghost predicate AliasesFollow(nodes: seq<Argp>) {
    forall k :: 0 <= k < |nodes| ==> OptsOf(nodes[k].options) != [] ==> !OptsOf(nodes[k].options)[0].alias
  }

  lemma FollowParts(x: seq<Argp>, y: seq<Argp>)
    requires AliasesFollow(x + y)
    ensures AliasesFollow(x) && AliasesFollow(y)
  {
    hide OptsOf;
    assert forall k :: 0 <= k < |x| ==> (x + y)[k] == x[k];
    assert forall k :: 0 <= k < |y| ==> (x + y)[|x| + k] == y[k];
  }

  lemma ChildFollows(cs: seq<Argp>)
    requires cs != [] && AliasesFollow(NodesAll(cs))
    ensures AliasesFollow(Nodes(cs[0])) && AliasesFollow(NodesAll(cs[1..]))
  {
    hide AliasesFollow, Nodes;
    FollowParts(Nodes(cs[0]), NodesAll(cs[1..]));
  }

  /** `argp_hol`: the list for a tree holds all its options in pre-order. */
  method ArgpHol(a: Argp) returns (hol: Hol)
    requires AliasesFollow(Nodes(a))
    ensures fresh(hol) && hol.Valid() && Listed(hol.entries) == AllOptions(a)
    decreases a
  {
    hide Listed, Letters, Placed, AllOptions, AliasesFollow, Nodes, NodesAll, OptionsOf, OptsOf;
    TreeUnfold(a);
    hol := new Hol(OptsOf(a.options));
    var i := 0;
    assert a.children[0..] == a.children;
    while i < |a.children|
      invariant i <= |a.children| && hol.Valid() && fresh(hol) && AliasesFollow(NodesAll(a.children[i..]))
      invariant Listed(hol.entries) + OptionsOf(NodesAll(a.children[i..])) == AllOptions(a)
    {
      var rest := a.children[i..];
      assert rest[0] == a.children[i] && rest[1..] == a.children[i + 1..];
      ChildFollows(rest);
      OptionsUnfold(rest);
      var more := ArgpHol(a.children[i]);
      ghost var before := Listed(hol.entries);
      hol.Append(more);
      assert before + (AllOptions(a.children[i]) + OptionsOf(NodesAll(rest[1..])))
          == Listed(hol.entries) + OptionsOf(NodesAll(rest[1..]));
      i := i + 1;
    }
    assert a.children[i..] == [];
    OptionsNil();
    assert Listed(hol.entries) + [] == Listed(hol.entries);
  }

  lemma TreeUnfold(a: Argp)
    requires AliasesFollow(Nodes(a))
    ensures OptsOf(a.options) != [] ==> !OptsOf(a.options)[0].alias
    ensures AliasesFollow(NodesAll(a.children)) && AllOptions(a) == OptsOf(a.options) + OptionsOf(NodesAll(a.children))
  {
    assert Nodes(a)[0] == a && Nodes(a)[1..] == NodesAll(a.children);
    assert forall k :: 0 <= k < |NodesAll(a.children)| ==> NodesAll(a.children)[k] == Nodes(a)[k + 1];
  }

  lemma OptionsNil()
    ensures OptionsOf(NodesAll([])) == []
  {
  }

  lemma OptionsUnfold(cs: seq<Argp>)
    requires cs != []
    ensures OptionsOf(NodesAll(cs)) == AllOptions(cs[0]) + OptionsOf(NodesAll(cs[1..]))
  {
    OptionsOfAppend(Nodes(cs[0]), NodesAll(cs[1..]));
  }

  /** The options in [lo, hi) that own their letter and are shown, each with the option it is about. */
  function OwnedCalls(opts: seq<Opt>, lo: nat, hi: nat): seq<(Opt, Opt)>
    requires lo <= hi <= |opts|
    decreases hi
  {
    if lo == hi then []
    else
      OwnedCalls(opts, lo, hi - 1)
      + (if Owner(opts, hi - 1) && !opts[hi - 1].hidden then [(opts[hi - 1], opts[lo])] else [])
  }

  /** `ks` are the places in [lo, hi) of the options that own their letter and are shown, in order. */
  lemma {:induction false} OwnedPlaces(opts: seq<Opt>, lo: nat, hi: nat) returns (ks: seq<int>)
    requires lo <= hi <= |opts|
    ensures forall k :: k in ks <==> lo <= k < hi && Owner(opts, k) && !opts[k].hidden
    ensures forall a, b :: 0 <= a < b < |ks| ==> ks[a] < ks[b]
    ensures var calls := OwnedCalls(opts, lo, hi);
      |calls| == |ks| && forall a :: 0 <= a < |ks| ==> 0 <= ks[a] < hi && calls[a] == (opts[ks[a]], opts[lo])
    decreases hi
  {
    hide Owner;
    ks := [];
    if lo < hi {
      var before := OwnedPlaces(opts, lo, hi - 1);
      ks := before + if Owner(opts, hi - 1) && !opts[hi - 1].hidden then [hi - 1] else [];
      hide OwnedCalls;
      OwnedNext(opts, lo, hi);
      forall a, b | 0 <= a < b < |ks| ensures ks[a] < ks[b] {
        if b == |before| { assert before[a] in before; }
      }
    }
  }

  lemma OwnedNext(opts: seq<Opt>, lo: nat, hi: nat)
    requires lo < hi <= |opts|
    ensures OwnedCalls(opts, lo, hi) == OwnedCalls(opts, lo, hi - 1)
      + if Owner(opts, hi - 1) && !opts[hi - 1].hidden then [(opts[hi - 1], opts[lo])] else []
  {
    hide Owner;
  }

  /**
  `hol_entry_short_iterate` over entry `n`, with a callback that goes on: the calls are for exactly the
  visible letters the entry owns, each together with the option the entry is about.
  */
  method ShortIterate(hol: Hol, n: nat) returns (calls: seq<(Opt, Opt)>)
    requires hol.Valid() && n < |hol.entries|
    ensures var all, from, num := Listed(hol.entries), |Listed(hol.entries[..n])|, |hol.entries[n].opts|;
      from + num <= |all| && calls == OwnedCalls(all, from, from + num)
  {
    hide Listed, Placed, Letters, Owner;
    PlacedAt(hol.entries, n);
    MergeSlices(hol.entries, n);
    var e := hol.entries[n];
    ghost var all, from := Listed(hol.entries), |Listed(hol.entries[..n])|;
    var about, so := e.opts[0], e.shorts;
    calls := [];
    for i := 0 to |e.opts|
      invariant about == e.opts[0] && so == |Letters(all[..from + i])|
      invariant calls == OwnedCalls(all, from, from + i)
    {
      var opt := e.opts[i];
      assert opt == all[from + i] && e.opts[0] == all[from];
      OwnerLetter(all, from + i);
      if IsShort(opt) { CursorLetter(all, from + i); }
      if IsShort(opt) && LetterAt(hol.shortOptions, so) == opt.key {
        if !opt.alias {
          about := opt;
        }
        if !opt.hidden {
          calls := calls + [(opt, about)];
        }
        so := so + 1;
      }
    }
  }

  // ---------------------------------------------------------------- help against parser

  /** The owner on the help side is an option the parser picks. */
  ghost predicate SameOwner(a: Argp, c: int) {
    var all, table := AllOptions(a), Table(a);
    && |table| == |all|
    && (forall k :: Owner(all, k) && all[k].key == c ==> FindShort(table, c) == Some(table[k]))
    && (FindShort(table, c).Some? ==> exists k :: Owner(all, k) && all[k].key == c)
  }

  /** The parser takes the first option with the key, also one that is there only as documentation. */
  ghost predicate FirstIsDoc(table: seq<Entry>, c: int) {
    exists k :: FirstKey(table, c, k) && table[k].opt.doc
  }

  lemma TableAt(a: Argp)
    ensures |Table(a)| == |AllOptions(a)| && forall k :: 0 <= k < |Table(a)| ==> Table(a)[k].opt == AllOptions(a)[k]
  {
    ConvertedOptions(a, None, 0, 0);
    assert forall k :: 0 <= k < |Table(a)| ==> OptsIn(Table(a))[k] == Table(a)[k].opt;
  }

  /**
  For a printable letter help and parser name the same option exactly when the first option with that
  key is not OPTION_DOC. Every parsing function must come with an options array.
  */
  lemma OwnersAgree(a: Argp, c: int)
    requires ArraysPresent(Nodes(a)) && 32 <= c <= 126
    ensures SameOwner(a, c) <==> !FirstIsDoc(Table(a), c)
  {
    hide AllOptions, Table, FindShort;
    var all, table := AllOptions(a), Table(a);
    TableAt(a);
    match FindShort(table, c)
    case None =>
      assert forall k :: 0 <= k < |all| ==> table[k].opt.key != c;
    case Some(e) =>
      var k :| FirstKey(table, c, k) && table[k] == e;
      assert forall j :: 0 <= j < k ==> table[j].opt == all[j];
      if all[k].doc {
        assert FirstIsDoc(table, c);
      } else {
        assert Owner(all, k);
        OnlyOwner(all, c, k);
        OnlyFirst(table, c, k);
      }
  }

  lemma OnlyOwner(all: seq<Opt>, c: int, k: int)
    requires Owner(all, k) && all[k].key == c
    ensures forall m :: Owner(all, m) && all[m].key == c ==> m == k
  {
  }

  lemma OnlyFirst(table: seq<Entry>, c: int, k: int)
    requires FirstKey(table, c, k) && !table[k].opt.doc
    ensures !FirstIsDoc(table, c)
  {
    forall m | FirstKey(table, c, m) ensures m == k { }
  }

  /** A documentation entry with a letter for its key hides the option that has it. */
  lemma DocShadows() returns (a: Argp)
    ensures AliasesFollow(Nodes(a)) && ArraysPresent(Nodes(a)) && !SameOwner(a, 'x' as int)
  {
    var note := Opt(Some("note"), 'x' as int, false, false, false, true, false);
    var opt := Opt(Some("extract"), 'x' as int, false, false, false, false, false);
    a := Argp(Some([note, opt]), true, []);
    assert Nodes(a) == [a] + [] == [a];
    assert OptionsOf([a]) == [note, opt] + OptionsOf([]) == [note, opt];
    TableAt(a);
    assert FirstKey(Table(a), 'x' as int, 0);
    OwnersAgree(a, 'x' as int);
  }
}
