/** Argp trees, and the parser tables `convert_options` lays out for them in pre-order. */
module ArgpTree {
  import opened Options
  import opened ArgpOptions

  /** `options` is absent where the C field is NULL; `parser` says whether there is a parsing function. */
  datatype Argp = Argp(options: Option<seq<Opt>>, parser: bool, children: seq<Argp>)

  datatype Group = Group(options: Option<seq<Opt>>, parser: bool, parent: Option<nat>, parentIndex: nat)

  predicate NeedsGroup(a: Argp) {
    a.options.Some? || a.parser
  }

  function OptsOf(options: Option<seq<Opt>>): seq<Opt> {
    match options case None => [] case Some(s) => s
  }

  // ---------------------------------------------------------------- pre-order

  function Nodes(a: Argp): seq<Argp> {
    [a] + NodesAll(a.children)
  }

  function NodesAll(cs: seq<Argp>): seq<Argp> {
    if cs == [] then [] else Nodes(cs[0]) + NodesAll(cs[1..])
  }

  /** Every parsing function comes with an options array, which the lookups dereference. */
  ghost predicate ArraysPresent(nodes: seq<Argp>) {
    forall k :: 0 <= k < |nodes| ==> nodes[k].parser ==> nodes[k].options.Some?
  }

  function OptionsOf(nodes: seq<Argp>): seq<Opt> {
    if nodes == [] then [] else OptsOf(nodes[0].options) + OptionsOf(nodes[1..])
  }

  /** All options of a tree in pre-order. */
  function AllOptions(a: Argp): seq<Opt> {
    OptionsOf(Nodes(a))
  }

  lemma {:induction false} OptionsOfAppend(x: seq<Argp>, y: seq<Argp>)
    ensures OptionsOf(x + y) == OptionsOf(x) + OptionsOf(y)
  {
    if x == [] {
      assert x + y == y;
    } else {
      var own, rest := OptsOf(x[0].options), x[1..];
      OptionsOfAppend(rest, y);
      assert x + y == [x[0]] + (rest + y) && (x + y)[1..] == rest + y;
      Associates(own, OptionsOf(rest), OptionsOf(y));
    }
  }

  lemma Associates<T>(a: seq<T>, b: seq<T>, c: seq<T>)
    ensures a + (b + c) == a + b + c
  {
  }

  // ---------------------------------------------------------------- what convert_options lays out

  /** The groups for `a`, the first of which has index `base`. */
  function Converted(a: Argp, parent: Option<nat>, index: nat, base: nat): seq<Group> {
    if NeedsGroup(a) then
      [Group(a.options, a.parser, parent, index)] + ConvertedAll(a.children, Some(base), 0, base + 1)
    else ConvertedAll(a.children, None, 0, base)
  }

  function ConvertedAll(cs: seq<Argp>, parent: Option<nat>, index: nat, base: nat): seq<Group> {
    if cs == [] then []
    else
      var g := Converted(cs[0], parent, index, base);
      g + ConvertedAll(cs[1..], parent, index + 1, base + |g|)
  }

  /** The entries of a list of groups in the order the lookups visit them. */
  function TableFrom(groups: seq<Group>, n: nat): seq<Entry> {
    if groups == [] then [] else EntriesOf(n, OptsOf(groups[0].options)) + TableFrom(groups[1..], n + 1)
  }

  function EntriesOf(n: nat, opts: seq<Opt>): seq<Entry> {
    seq(|opts|, k requires 0 <= k < |opts| => Entry(n, opts[k]))
  }

  function OptsIn(table: seq<Entry>): seq<Opt> {
    seq(|table|, k requires 0 <= k < |table| => table[k].opt)
  }

  function Table(a: Argp): seq<Entry> {
    TableFrom(Converted(a, None, 0, 0), 0)
  }

  lemma {:induction false} TableFromAppend(x: seq<Group>, y: seq<Group>, n: nat)
    ensures TableFrom(x + y, n) == TableFrom(x, n) + TableFrom(y, n + |x|)
  {
    if x == [] {
      assert x + y == y;
    } else {
      var own, rest := EntriesOf(n, OptsOf(x[0].options)), x[1..];
      TableFromAppend(rest, y, n + 1);
      assert x + y == [x[0]] + (rest + y) && (x + y)[1..] == rest + y;
      Associates(own, TableFrom(rest, n + 1), TableFrom(y, n + |x|));
    }
  }

  lemma OptsInAppend(x: seq<Entry>, y: seq<Entry>)
    ensures OptsIn(x + y) == OptsIn(x) + OptsIn(y)
  {
  }

  /** The lookups see the options of the tree in pre-order. */
  lemma {:induction false} ConvertedOptions(a: Argp, parent: Option<nat>, index: nat, base: nat)
    ensures OptsIn(TableFrom(Converted(a, parent, index, base), base)) == OptionsOf(Nodes(a))
    decreases a, 1
  {
    assert Nodes(a)[1..] == NodesAll(a.children);
    if NeedsGroup(a) {
      var g, rest := Group(a.options, a.parser, parent, index), ConvertedAll(a.children, Some(base), 0, base + 1);
      ConvertedAllOptions(a.children, Some(base), 0, base + 1);
      assert ([g] + rest)[1..] == rest;
      var own := EntriesOf(base, OptsOf(a.options));
      assert OptsIn(own) == OptsOf(a.options);
      OptsInAppend(own, TableFrom(rest, base + 1));
    } else {
      ConvertedAllOptions(a.children, None, 0, base);
      assert [] + OptionsOf(NodesAll(a.children)) == OptionsOf(NodesAll(a.children));
    }
  }

  lemma {:induction false} ConvertedAllOptions(cs: seq<Argp>, parent: Option<nat>, index: nat, base: nat)
    ensures OptsIn(TableFrom(ConvertedAll(cs, parent, index, base), base)) == OptionsOf(NodesAll(cs))
    decreases cs
  {
    if cs != [] {
      var g := Converted(cs[0], parent, index, base);
      var rest := ConvertedAll(cs[1..], parent, index + 1, base + |g|);
      ConvertedOptions(cs[0], parent, index, base);
      ConvertedAllOptions(cs[1..], parent, index + 1, base + |g|);
      TableFromAppend(g, rest, base);
      OptsInAppend(TableFrom(g, base), TableFrom(rest, base + |g|));
      OptionsOfAppend(Nodes(cs[0]), NodesAll(cs[1..]));
    }
  }

  // ---------------------------------------------------------------- which parser an entry belongs to

  /** The options that the table has under group `g`, in order. */
  function OfGroup(table: seq<Entry>, g: nat): seq<Opt> {
    if table == [] then [] else (if table[0].group == g then [table[0].opt] else []) + OfGroup(table[1..], g)
  }

  lemma {:induction false} OfGroupAppend(x: seq<Entry>, y: seq<Entry>, g: nat)
    ensures OfGroup(x + y, g) == OfGroup(x, g) + OfGroup(y, g)
  {
    if x == [] {
      assert x + y == y;
    } else {
      OfGroupAppend(x[1..], y, g);
      assert x + y == [x[0]] + (x[1..] + y) && (x + y)[1..] == x[1..] + y;
      Associates(if x[0].group == g then [x[0].opt] else [], OfGroup(x[1..], g), OfGroup(y, g));
    }
  }

  lemma {:induction false} OwnEntries(n: nat, opts: seq<Opt>, g: nat)
    ensures OfGroup(EntriesOf(n, opts), g) == if g == n then opts else []
    decreases |opts|
  {
    if opts != [] {
      OwnEntries(n, opts[1..], g);
      assert EntriesOf(n, opts)[1..] == EntriesOf(n, opts[1..]);
      assert opts == [opts[0]] + opts[1..];
    }
  }

  /** Every entry belongs to a group, and each group has exactly its own options, in order. */
  lemma {:induction false} EntryGroups(groups: seq<Group>, n: nat, g: nat)
    ensures forall k :: 0 <= k < |TableFrom(groups, n)| ==> n <= TableFrom(groups, n)[k].group < n + |groups|
    ensures OfGroup(TableFrom(groups, n), g) == if n <= g < n + |groups| then OptsOf(groups[g - n].options) else []
    decreases |groups|
  {
    if groups != [] {
      hide OfGroup;
      var own, rest := EntriesOf(n, OptsOf(groups[0].options)), TableFrom(groups[1..], n + 1);
      EntryGroups(groups[1..], n + 1, g);
      OwnEntries(n, OptsOf(groups[0].options), g);
      OfGroupAppend(own, rest, g);
      GroupsJoin(own, rest, n, n + |groups|);
    }
  }

  lemma GroupsJoin(own: seq<Entry>, rest: seq<Entry>, lo: nat, hi: nat)
    requires lo < hi && forall k :: 0 <= k < |own| ==> own[k].group == lo
    requires forall k :: 0 <= k < |rest| ==> lo < rest[k].group < hi
    ensures forall k :: 0 <= k < |own + rest| ==> lo <= (own + rest)[k].group < hi
  {
  }

  // ---------------------------------------------------------------- the place of a group in the tree

  /** A place in a tree: which child to follow at each level. */
  type Place = seq<nat>

  /** The argp at a place. */
  function NodeAt(a: Argp, p: Place): Option<Argp>
    decreases |p|
  {
    if p == [] then Some(a) else if p[0] < |a.children| then NodeAt(a.children[p[0]], p[1..]) else None
  }

  /** Pre-order: an argp comes before those below it, and what is below one child before what is below the next. */
  ghost predicate Precedes(p: Place, q: Place) {
    q != [] && (p == [] || p[0] < q[0] || (p[0] == q[0] && Precedes(p[1..], q[1..])))
  }

  function Below(i: nat, ps: seq<Place>): seq<Place> {
    seq(|ps|, k requires 0 <= k < |ps| => [i] + ps[k])
  }

  /** The places of the argps that get a group. */
  function Places(a: Argp): seq<Place> {
    (if NeedsGroup(a) then [[]] else []) + PlacesAll(a.children, 0)
  }

  function PlacesAll(cs: seq<Argp>, i: nat): seq<Place> {
    if cs == [] then [] else Below(i, Places(cs[0])) + PlacesAll(cs[1..], i + 1)
  }

  /** The places are those of the argps with options or a parsing function. */
  lemma {:induction false} PlacesExact(a: Argp, p: Place)
    ensures p in Places(a) <==> NodeAt(a, p).Some? && NeedsGroup(NodeAt(a, p).value)
    decreases a, 1
  {
    PlacesAllExact(a.children, 0, p);
  }

  lemma {:induction false} PlacesAllExact(cs: seq<Argp>, i: nat, p: Place)
    ensures p in PlacesAll(cs, i) <==>
      && p != [] && i <= p[0] < i + |cs| && NodeAt(cs[p[0] - i], p[1..]).Some?
      && NeedsGroup(NodeAt(cs[p[0] - i], p[1..]).value)
    decreases cs
  {
    hide NodeAt, Places, Below, NeedsGroup;
    if cs != [] {
      var own, rest := Below(i, Places(cs[0])), PlacesAll(cs[1..], i + 1);
      assert p in PlacesAll(cs, i) <==> p in own || p in rest;
      PlacesAllExact(cs[1..], i + 1, p);
      BelowMember(i, Places(cs[0]), p);
      if p != [] {
        PlacesExact(cs[0], p[1..]);
        if i < p[0] < i + |cs| { assert cs[1..][p[0] - (i + 1)] == cs[p[0] - i]; }
      }
    }
  }

  lemma BelowMember(i: nat, ps: seq<Place>, p: Place)
    ensures p in Below(i, ps) <==> p != [] && p[0] == i && p[1..] in ps
  {
    if p in Below(i, ps) {
      var k :| 0 <= k < |ps| && Below(i, ps)[k] == p;
      assert p[1..] == ps[k];
    }
    if p != [] && p[0] == i && p[1..] in ps {
      var k :| 0 <= k < |ps| && ps[k] == p[1..];
      assert Below(i, ps)[k] == [i] + p[1..] == p;
    }
  }

  /** They stand in pre-order, each once. */
  lemma {:induction false} PlacesOrdered(a: Argp, j: nat, k: nat)
    requires j < k < |Places(a)|
    ensures Precedes(Places(a)[j], Places(a)[k])
    decreases a, 1
  {
    var n := if NeedsGroup(a) then 1 else 0;
    PlacesAllExact(a.children, 0, Places(a)[k]);
    assert Places(a)[k] == PlacesAll(a.children, 0)[k - n];
    if j >= n { PlacesAllOrdered(a.children, 0, j - n, k - n); }
  }

  lemma {:induction false} PlacesAllOrdered(cs: seq<Argp>, i: nat, j: nat, k: nat)
    requires j < k < |PlacesAll(cs, i)|
    ensures Precedes(PlacesAll(cs, i)[j], PlacesAll(cs, i)[k])
    decreases cs
  {
    var own, rest := Below(i, Places(cs[0])), PlacesAll(cs[1..], i + 1);
    if k < |own| {
      PlacesOrdered(cs[0], j, k);
      assert own[j][1..] == Places(cs[0])[j] && own[k][1..] == Places(cs[0])[k];
    } else if j >= |own| {
      PlacesAllOrdered(cs[1..], i + 1, j - |own|, k - |own|);
    } else {
      PlacesAllExact(cs[1..], i + 1, rest[k - |own|]);
      assert rest[k - |own|] in rest;
    }
  }

  /**
  Group `g`, for place `p` of `a`: it is made from the argp there, its index is the last step of the place, and its
  parent is the group of the argp one step up, if that has one.
  */
  ghost predicate Accounted(a: Argp, g: Group, p: Place, parent: Option<nat>, index: nat, base: nat) {
    && NodeAt(a, p).Some? && g.options == NodeAt(a, p).value.options && g.parser == NodeAt(a, p).value.parser
    && g.parentIndex == (if p == [] then index else p[|p| - 1])
    && if p == [] then g.parent == parent
       else
         var q := p[..|p| - 1];
         && NodeAt(a, q).Some?
         && if NeedsGroup(NodeAt(a, q).value) then HasPlace(Places(a), base, g.parent, q) else g.parent == None
  }

  /** The group with this index is the one for place `q`. */
  ghost predicate HasPlace(ps: seq<Place>, base: nat, group: Option<nat>, q: Place) {
    group.Some? && base <= group.value < base + |ps| && ps[group.value - base] == q
  }

  /** The same for a list of children whose first has index `i`. */
  ghost predicate AccountedAll(cs: seq<Argp>, g: Group, p: Place, parent: Option<nat>, i: nat, base: nat) {
    && p != [] && i <= p[0] < i + |cs| && var c := cs[p[0] - i];
    && NodeAt(c, p[1..]).Some? && g.options == NodeAt(c, p[1..]).value.options
    && g.parser == NodeAt(c, p[1..]).value.parser && g.parentIndex == p[|p| - 1]
    && if |p| == 1 then g.parent == parent
       else
         var q := p[..|p| - 1];
         && NodeAt(c, q[1..]).Some?
         && if NeedsGroup(NodeAt(c, q[1..]).value) then HasPlace(PlacesAll(cs, i), base, g.parent, q)
            else g.parent == None
  }

  /** Group `k` is the one for the `k`-th place of the tree in pre-order. */
  lemma {:induction false} GroupsPlaced(a: Argp, parent: Option<nat>, index: nat, base: nat, k: nat)
    ensures |Places(a)| == |Converted(a, parent, index, base)|
    ensures k < |Places(a)| ==> Accounted(a, Converted(a, parent, index, base)[k], Places(a)[k], parent, index, base)
    decreases a, 1
  {
    hide Converted, ConvertedAll, Places, PlacesAll, Accounted, AccountedAll;
    var n: nat, up := if NeedsGroup(a) then 1 else 0, if NeedsGroup(a) then Some(base) else None;
    GroupsUnfold(a, parent, index, base, k);
    GroupsPlacedAll(a.children, up, 0, base + n, if k < n then 0 else k - n);
    if n <= k < |Places(a)| {
      ChildPlaced(a, Converted(a, parent, index, base)[k], Places(a)[k], parent, index, base);
    }
  }

  lemma GroupsUnfold(a: Argp, parent: Option<nat>, index: nat, base: nat, k: nat)
    ensures var n: nat, up := if NeedsGroup(a) then 1 else 0, if NeedsGroup(a) then Some(base) else None;
      var gs, all := Converted(a, parent, index, base), ConvertedAll(a.children, up, 0, base + n);
      var ps, places := Places(a), PlacesAll(a.children, 0);
      && |gs| == n + |all| && |ps| == n + |places|
      && (n <= k < |gs| ==> gs[k] == all[k - n]) && (n <= k < |ps| ==> ps[k] == places[k - n])
      && (k < n ==> Accounted(a, gs[k], ps[k], parent, index, base))
  {
  }

  lemma ChildPlaced(a: Argp, g: Group, p: Place, parent: Option<nat>, index: nat, base: nat)
    requires var n := if NeedsGroup(a) then 1 else 0;
      AccountedAll(a.children, g, p, if NeedsGroup(a) then Some(base) else None, 0, base + n)
    ensures Accounted(a, g, p, parent, index, base)
  {
    hide Places, PlacesAll, HasPlace;
    var q := p[..|p| - 1];
    if |p| == 1 {
      assert q == [];
      if NeedsGroup(a) { RootPlace(a, base); }
    } else {
      assert q[0] == p[0];
      ChildPlace(a, base, g.parent, q);
    }
  }

  lemma RootPlace(a: Argp, base: nat)
    requires NeedsGroup(a)
    ensures HasPlace(Places(a), base, Some(base), [])
  {
  }

  lemma ChildPlace(a: Argp, base: nat, group: Option<nat>, q: Place)
    ensures HasPlace(PlacesAll(a.children, 0), base + (if NeedsGroup(a) then 1 else 0), group, q) ==>
      HasPlace(Places(a), base, group, q)
  {
    hide PlacesAll;
    var n, all := if NeedsGroup(a) then 1 else 0, PlacesAll(a.children, 0);
    assert Places(a)[n..] == all;
  }

  lemma {:induction false} GroupsPlacedAll(cs: seq<Argp>, parent: Option<nat>, i: nat, base: nat, k: nat)
    ensures |PlacesAll(cs, i)| == |ConvertedAll(cs, parent, i, base)|
    ensures k < |PlacesAll(cs, i)| ==>
      AccountedAll(cs, ConvertedAll(cs, parent, i, base)[k], PlacesAll(cs, i)[k], parent, i, base)
    decreases cs
  {
    if cs != [] {
      var gs, own := Converted(cs[0], parent, i, base), Below(i, Places(cs[0]));
      var rest, ps := ConvertedAll(cs[1..], parent, i + 1, base + |gs|), PlacesAll(cs[1..], i + 1);
      GroupsPlaced(cs[0], parent, i, base, k);
      GroupsPlacedAll(cs[1..], parent, i + 1, base + |gs|, if k < |own| then 0 else k - |own|);
      if k < |own| {
        FirstPlaced(cs, gs[k], Places(cs[0])[k], parent, i, base);
      } else if k < |own| + |ps| {
        LaterPlaced(cs, rest[k - |own|], ps[k - |own|], parent, i, base);
      }
    }
  }

  lemma FirstPlaced(cs: seq<Argp>, g: Group, p: Place, parent: Option<nat>, i: nat, base: nat)
    requires cs != [] && Accounted(cs[0], g, p, parent, i, base)
    ensures AccountedAll(cs, g, [i] + p, parent, i, base)
  {
    hide NodeAt, Places, PlacesAll, HasPlace;
    var full := [i] + p;
    assert full[1..] == p;
    if p != [] {
      var q := p[..|p| - 1];
      assert full[..|full| - 1] == [i] + q && ([i] + q)[1..] == q;
      FirstPlace(cs, i, base, g.parent, q);
    }
  }

  lemma FirstPlace(cs: seq<Argp>, i: nat, base: nat, group: Option<nat>, q: Place)
    requires cs != []
    ensures HasPlace(Places(cs[0]), base, group, q) ==> HasPlace(PlacesAll(cs, i), base, group, [i] + q)
  {
    hide Places;
    var own, rest := Below(i, Places(cs[0])), PlacesAll(cs[1..], i + 1);
    assert PlacesAll(cs, i)[..|own|] == own;
  }

  lemma LaterPlaced(cs: seq<Argp>, g: Group, p: Place, parent: Option<nat>, i: nat, base: nat)
    requires cs != [] && AccountedAll(cs[1..], g, p, parent, i + 1, base + |Places(cs[0])|)
    ensures AccountedAll(cs, g, p, parent, i, base)
  {
    hide NodeAt, Places, PlacesAll, HasPlace;
    assert cs[1..][p[0] - (i + 1)] == cs[p[0] - i];
    LaterPlace(cs, i, base, g.parent, p[..|p| - 1]);
  }

  lemma LaterPlace(cs: seq<Argp>, i: nat, base: nat, group: Option<nat>, q: Place)
    requires cs != []
    ensures HasPlace(PlacesAll(cs[1..], i + 1), base + |Places(cs[0])|, group, q) ==>
      HasPlace(PlacesAll(cs, i), base, group, q)
  {
    hide Places;
    var own, rest := Below(i, Places(cs[0])), PlacesAll(cs[1..], i + 1);
    assert PlacesAll(cs, i)[|own|..] == rest;
  }

  lemma {:induction false} EntriesOrdered(groups: seq<Group>, n: nat, j: nat, k: nat)
    requires j < k < |TableFrom(groups, n)|
    ensures TableFrom(groups, n)[j].group <= TableFrom(groups, n)[k].group
    decreases |groups|
  {
    var own, rest := EntriesOf(n, OptsOf(groups[0].options)), TableFrom(groups[1..], n + 1);
    EntryGroups(groups[1..], n + 1, 0);
    if j >= |own| { EntriesOrdered(groups[1..], n + 1, j - |own|, k - |own|); }
  }

  /**
  The table of a tree: its entries stand in the order of their groups, and those of group `g` are, in order, the
  options of the argp at the `g`-th place of the tree in pre-order.
  */
  lemma TableMeaning(a: Argp, g: nat)
    ensures forall k :: 0 <= k < |Table(a)| ==> Table(a)[k].group < |Places(a)|
    ensures forall j, k :: 0 <= j < k < |Table(a)| ==> Table(a)[j].group <= Table(a)[k].group
    ensures g < |Places(a)| ==>
      NodeAt(a, Places(a)[g]).Some? && OfGroup(Table(a), g) == OptsOf(NodeAt(a, Places(a)[g]).value.options)
  {
    hide Converted, Places, TableFrom, NodeAt;
    var gs := Converted(a, None, 0, 0);
    GroupsPlaced(a, None, 0, 0, g);
    EntryGroups(gs, 0, g);
    forall j, k | 0 <= j < k < |Table(a)| ensures Table(a)[j].group <= Table(a)[k].group {
      EntriesOrdered(gs, 0, j, k);
    }
  }

  // ---------------------------------------------------------------- sizes

  /** `calc_sizes`: how many groups and child inputs are allocated. */
  function NumGroups(a: Argp): nat {
    (if NeedsGroup(a) then 1 else 0) + NumGroupsAll(a.children)
  }

  function NumGroupsAll(cs: seq<Argp>): nat {
    if cs == [] then 0 else NumGroups(cs[0]) + NumGroupsAll(cs[1..])
  }

  function NumInputs(a: Argp): nat {
    NumInputsAll(a.children)
  }

  function NumInputsAll(cs: seq<Argp>): nat {
    if cs == [] then 0 else NumInputs(cs[0]) + 1 + NumInputsAll(cs[1..])
  }

  /** The child inputs `convert_options` hands out: only groups get some. */
  function UsedInputs(a: Argp): nat {
    (if NeedsGroup(a) then |a.children| else 0) + UsedInputsAll(a.children)
  }

  function UsedInputsAll(cs: seq<Argp>): nat {
    if cs == [] then 0 else UsedInputs(cs[0]) + UsedInputsAll(cs[1..])
  }

  /** The children of the argps that get a group. */
  function GroupChildren(nodes: seq<Argp>): nat {
    if nodes == [] then 0
    else (if NeedsGroup(nodes[0]) then |nodes[0].children| else 0) + GroupChildren(nodes[1..])
  }

  lemma {:induction false} GroupChildrenAppend(x: seq<Argp>, y: seq<Argp>)
    ensures GroupChildren(x + y) == GroupChildren(x) + GroupChildren(y)
  {
    if x == [] {
      assert x + y == y;
    } else {
      GroupChildrenAppend(x[1..], y);
      assert (x + y)[1..] == x[1..] + y;
    }
  }

  /** One child input is allocated for every argp but the root, and one handed out for every child of a group. */
  lemma {:induction false} InputsMeaning(a: Argp)
    ensures NumInputs(a) + 1 == |Nodes(a)| && UsedInputs(a) == GroupChildren(Nodes(a))
    decreases a, 1
  {
    InputsAllMeaning(a.children);
    assert Nodes(a)[1..] == NodesAll(a.children);
  }

  lemma {:induction false} InputsAllMeaning(cs: seq<Argp>)
    ensures NumInputsAll(cs) == |NodesAll(cs)| && UsedInputsAll(cs) == GroupChildren(NodesAll(cs))
    decreases cs
  {
    if cs != [] {
      InputsMeaning(cs[0]);
      InputsAllMeaning(cs[1..]);
      GroupChildrenAppend(Nodes(cs[0]), NodesAll(cs[1..]));
    }
  }

  /** The groups fill their allocation exactly. */
  lemma {:induction false} ConvertedSize(a: Argp, parent: Option<nat>, index: nat, base: nat)
    ensures |Converted(a, parent, index, base)| == NumGroups(a)
    decreases a, 1
  {
    if NeedsGroup(a) {
      ConvertedAllSize(a.children, Some(base), 0, base + 1);
    } else {
      ConvertedAllSize(a.children, None, 0, base);
    }
  }

  lemma {:induction false} ConvertedAllSize(cs: seq<Argp>, parent: Option<nat>, index: nat, base: nat)
    ensures |ConvertedAll(cs, parent, index, base)| == NumGroupsAll(cs)
    decreases cs
  {
    if cs != [] {
      ConvertedSize(cs[0], parent, index, base);
      ConvertedAllSize(cs[1..], parent, index + 1, base + |Converted(cs[0], parent, index, base)|);
    }
  }

  /** The child inputs never run past their allocation. */
  lemma {:induction false} InputsFit(a: Argp)
    ensures UsedInputs(a) <= NumInputs(a)
    decreases a, 1
  {
    InputsFitAll(a.children);
  }

  lemma {:induction false} InputsFitAll(cs: seq<Argp>)
    ensures UsedInputsAll(cs) + |cs| <= NumInputsAll(cs)
    decreases cs
  {
    if cs != [] {
      InputsFit(cs[0]);
      InputsFitAll(cs[1..]);
    }
  }

  /** A group's parent stands before it. */
  lemma {:induction false} ParentsFirst(a: Argp, parent: Option<nat>, index: nat, base: nat, k: nat)
    requires parent.Some? ==> parent.value < base
    requires k < |Converted(a, parent, index, base)|
    ensures var p := Converted(a, parent, index, base)[k].parent; p.Some? ==> p.value < base + k
    decreases a, 1
  {
    if NeedsGroup(a) {
      if k > 0 { ParentsFirstAll(a.children, Some(base), 0, base + 1, k - 1); }
    } else {
      ParentsFirstAll(a.children, None, 0, base, k);
    }
  }

  lemma {:induction false} ParentsFirstAll(cs: seq<Argp>, parent: Option<nat>, index: nat, base: nat, k: nat)
    requires parent.Some? ==> parent.value < base
    requires k < |ConvertedAll(cs, parent, index, base)|
    ensures var p := ConvertedAll(cs, parent, index, base)[k].parent; p.Some? ==> p.value < base + k
    decreases cs
  {
    var g := Converted(cs[0], parent, index, base);
    if k < |g| {
      ParentsFirst(cs[0], parent, index, base, k);
    } else {
      ParentsFirstAll(cs[1..], parent, index + 1, base + |g|, k - |g|);
    }
  }

  // ---------------------------------------------------------------- convert_options

  /** The short options recorded for ARGP_LONG_ONLY: every short key, repeats included. */
  function ShortKeys(opts: seq<Opt>): seq<int> {
    if opts == [] then []
    else ShortKeys(opts[..|opts| - 1]) + (if IsShort(opts[|opts| - 1]) then [opts[|opts| - 1].key] else [])
  }

  lemma {:induction false} ShortKeysAppend(x: seq<Opt>, y: seq<Opt>)
    ensures ShortKeys(x + y) == ShortKeys(x) + ShortKeys(y)
    decreases |y|
  {
    if y == [] {
      assert x + y == x;
    } else {
      ShortKeysAppend(x, y[..|y| - 1]);
      assert (x + y)[..|x + y| - 1] == x + y[..|y| - 1];
    }
  }

  /** A key is recorded exactly when some short option has it. */
  lemma {:induction false} ShortKeysMeaning(opts: seq<Opt>, c: int)
    ensures c in ShortKeys(opts) <==> exists k :: 0 <= k < |opts| && IsShort(opts[k]) && opts[k].key == c
  {
    if opts != [] {
      var n := |opts| - 1;
      ShortKeysMeaning(opts[..n], c);
      assert forall k :: 0 <= k < n ==> opts[..n][k] == opts[k];
      if c in ShortKeys(opts[..n]) {
        var k :| 0 <= k < n && IsShort(opts[..n][k]) && opts[..n][k].key == c;
        assert IsShort(opts[k]) && opts[k].key == c;
      }
    }
  }

  class Tables {
    var groups: seq<Group>
    var shortOpts: seq<int>
    var inputs: nat

    constructor ()
      ensures groups == [] && shortOpts == [] && inputs == 0
    {
      groups, shortOpts, inputs := [], [], 0;
    }

    /** `convert_options`, recording short options on the way. */
    method Convert(a: Argp, parent: Option<nat>, index: nat)
      requires ArraysPresent(Nodes(a))
      modifies this
      ensures groups == old(groups) + Converted(a, parent, index, |old(groups)|)
      ensures shortOpts == old(shortOpts) + ShortKeys(AllOptions(a))
      ensures inputs == old(inputs) + UsedInputs(a)
      decreases a
    {
      hide ShortKeys;
      var up := None;
      assert Nodes(a)[0] == a && Nodes(a)[1..] == NodesAll(a.children);
      ghost var nodes := Nodes(a);
      if NeedsGroup(a) {
        var opts := a.options.value;
        Record(opts);
        up := Some(|groups|);
        groups := groups + [Group(a.options, a.parser, parent, index)];
        inputs := inputs + |a.children|;
      } else {
        ShortKeysNil();
      }
      var own := OptsOf(a.options);
      assert shortOpts == old(shortOpts) + ShortKeys(own);
      label body:
      ghost var base := |groups|;
      assert forall k :: 0 <= k < |NodesAll(a.children)| ==> NodesAll(a.children)[k] == nodes[k + 1];
      ConvertChildren(a.children, up);
      ShortKeysAppend(own, OptionsOf(NodesAll(a.children)));
      assert shortOpts == old(shortOpts) + (ShortKeys(own) + ShortKeys(OptionsOf(NodesAll(a.children))));
      assert NeedsGroup(a) ==>
        groups == old(groups) + ([Group(a.options, a.parser, parent, index)] + ConvertedAll(a.children, up, 0, base));
    }

    method Record(opts: seq<Opt>)
      modifies this`shortOpts
      ensures shortOpts == old(shortOpts) + ShortKeys(opts)
    {
      for i := 0 to |opts|
        invariant shortOpts == old(shortOpts) + ShortKeys(opts[..i])
      {
        assert opts[..i + 1][..i] == opts[..i];
        if IsShort(opts[i]) {
          shortOpts := shortOpts + [opts[i].key];
        }
      }
      assert opts[..|opts|] == opts;
    }

    /** The loop over the children, which carries the next free group along. */
    method ConvertChildren(cs: seq<Argp>, parent: Option<nat>)
      requires ArraysPresent(NodesAll(cs))
      modifies this
      ensures groups == old(groups) + ConvertedAll(cs, parent, 0, |old(groups)|)
      ensures shortOpts == old(shortOpts) + ShortKeys(OptionsOf(NodesAll(cs)))
      ensures inputs == old(inputs) + UsedInputsAll(cs)
      decreases cs
    {
      hide ShortKeys, Converted, ConvertedAll, Nodes, NodesAll, OptionsOf, UsedInputs, UsedInputsAll, ArraysPresent;
      ChildrenNil(parent, 0, 0);
      var i := 0;
      assert cs[0..] == cs;
      while i < |cs|
        invariant i <= |cs|
        invariant groups + ConvertedAll(cs[i..], parent, i, |groups|)
               == old(groups) + ConvertedAll(cs, parent, 0, |old(groups)|)
        invariant shortOpts + ShortKeys(OptionsOf(NodesAll(cs[i..])))
          == old(shortOpts) + ShortKeys(OptionsOf(NodesAll(cs)))
        invariant inputs + UsedInputsAll(cs[i..]) == old(inputs) + UsedInputsAll(cs)
        invariant ArraysPresent(NodesAll(cs[i..]))
      {
        var rest := cs[i..];
        assert rest[0] == cs[i] && rest[1..] == cs[i + 1..];
        ChildrenPresent(rest);
        ChildrenUnfold(rest, parent, i, |groups|);
        ghost var before, keys := groups, shortOpts;
        Convert(cs[i], parent, i);
        ghost var g := Converted(cs[i], parent, i, |before|);
        assert before + (g + ConvertedAll(cs[i + 1..], parent, i + 1, |before| + |g|))
            == groups + ConvertedAll(cs[i + 1..], parent, i + 1, |groups|);
        ghost var later := ShortKeys(OptionsOf(NodesAll(cs[i + 1..])));
        assert keys + (ShortKeys(AllOptions(cs[i])) + later) == shortOpts + later;
        i := i + 1;
      }
      assert cs[i..] == [];
      ChildrenNil(parent, i, |groups|);
    }
  }

  lemma ShortKeysNil()
    ensures ShortKeys([]) == []
  {
  }

  lemma ChildrenNil(parent: Option<nat>, index: nat, base: nat)
    ensures ConvertedAll([], parent, index, base) == [] && UsedInputsAll([]) == 0
    ensures ShortKeys(OptionsOf(NodesAll([]))) == []
  {
  }

  lemma ChildrenUnfold(cs: seq<Argp>, parent: Option<nat>, index: nat, base: nat)
    requires cs != []
    ensures var g := Converted(cs[0], parent, index, base);
      ConvertedAll(cs, parent, index, base) == g + ConvertedAll(cs[1..], parent, index + 1, base + |g|)
    ensures ShortKeys(OptionsOf(NodesAll(cs))) == ShortKeys(AllOptions(cs[0])) + ShortKeys(OptionsOf(NodesAll(cs[1..])))
    ensures UsedInputsAll(cs) == UsedInputs(cs[0]) + UsedInputsAll(cs[1..])
  {
    OptionsOfAppend(Nodes(cs[0]), NodesAll(cs[1..]));
    ShortKeysAppend(AllOptions(cs[0]), OptionsOf(NodesAll(cs[1..])));
  }

  lemma PresentParts(x: seq<Argp>, y: seq<Argp>)
    requires ArraysPresent(x + y)
    ensures ArraysPresent(x) && ArraysPresent(y)
  {
    assert forall k :: 0 <= k < |x| ==> (x + y)[k] == x[k];
    assert forall k :: 0 <= k < |y| ==> (x + y)[|x| + k] == y[k];
  }

  lemma ChildrenPresent(cs: seq<Argp>)
    requires cs != [] && ArraysPresent(NodesAll(cs))
    ensures ArraysPresent(Nodes(cs[0])) && ArraysPresent(NodesAll(cs[1..]))
  {
    hide ArraysPresent, Nodes;
    PresentParts(Nodes(cs[0]), NodesAll(cs[1..]));
  }
}
