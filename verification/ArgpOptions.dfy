/** Option tables of an argp parser, and the lookups `parser_parse_next` makes in them. */
module ArgpOptions {
  import opened Options

  /** An entry of an options array; the terminating entry is not part of the sequences below. */
  datatype Opt = Opt(name: Option<string>, key: int, hasArg: bool, optional: bool, alias: bool, doc: bool, hidden: bool)

  /** An option together with the group whose parser handles it. */
  datatype Entry = Entry(group: nat, opt: Opt)

  /** `__option_is_short`: a printable key of an option that is not documentation only. */
  predicate IsShort(o: Opt) {
    !o.doc && 32 <= o.key <= 126
  }

  // ---------------------------------------------------------------- short options

  /** Position `k` is the first, in group order, with this key. */
  ghost predicate FirstKey(table: seq<Entry>, key: int, k: int) {
    0 <= k < |table| && table[k].opt.key == key && forall j :: 0 <= j < k ==> table[j].opt.key != key
  }

  /** `find_short_option`. */
  function FindShort(table: seq<Entry>, key: int): (r: Option<Entry>)
    ensures r.Some? ==> exists k :: FirstKey(table, key, k) && table[k] == r.value
    ensures r.None? ==> forall k :: 0 <= k < |table| ==> table[k].opt.key != key
  {
    if table == [] then None
    else if table[0].opt.key == key then
      assert FirstKey(table, key, 0);
      Some(table[0])
    else
      var r := FindShort(table[1..], key);
      assert r.Some? ==> exists k :: FirstKey(table, key, k) && table[k] == r.value by {
        if r.Some? {
          var k :| FirstKey(table[1..], key, k) && table[1..][k] == r.value;
          assert forall j :: 1 <= j < |table| ==> table[j] == table[1..][j - 1];
          assert FirstKey(table, key, k + 1);
        }
      }
      assert forall k :: 1 <= k < |table| ==> table[k] == table[1..][k - 1];
      r
  }

  // ---------------------------------------------------------------- long options

  datatype MatchResult = MatchExact | MatchPartial | MatchNo

  /** `match_option`: compares a long option argument, which ends at NUL or '=', with an option name. */
  function Match(arg: string, name: string): MatchResult {
    if arg == "" || arg[0] == '=' then if name == "" then MatchExact else MatchPartial
    else if name == "" || arg[0] != name[0] then MatchNo
    else Match(arg[1..], name[1..])
  }

  /** The part of a long option argument before its '='. */
  function Base(arg: string): string {
    if arg == "" || arg[0] == '=' then "" else [arg[0]] + Base(arg[1..])
  }

  /** The text after the first '='. */
  function Value(arg: string): Option<string> {
    if arg == "" then None else if arg[0] == '=' then Some(arg[1..]) else Value(arg[1..])
  }

  /** An exact match is the name itself, a partial one a proper prefix of it. */
  lemma {:induction false} MatchMeaning(arg: string, name: string)
    ensures Match(arg, name) == MatchExact <==> Base(arg) == name
    ensures Match(arg, name) == MatchPartial <==> Base(arg) < name
  {
    if arg != "" && arg[0] != '=' && name != "" && arg[0] == name[0] {
      MatchMeaning(arg[1..], name[1..]);
      assert name == [name[0]] + name[1..];
      assert Base(arg)[1..] == Base(arg[1..]);
    }
  }

  predicate Exact(e: Entry, arg: string) {
    e.opt.name.Some? && Match(arg, e.opt.name.value) == MatchExact
  }

  predicate Partial(e: Entry, arg: string) {
    e.opt.name.Some? && Match(arg, e.opt.name.value) == MatchPartial
  }

  /** The loop of `find_long_option`, from its running count and last partial match. */
  function FindLongFrom(table: seq<Entry>, arg: string, partials: nat, matched: Option<Entry>): Option<Entry> {
    if table == [] then if partials == 1 then matched else None
    else if Exact(table[0], arg) then Some(table[0])
    else if Partial(table[0], arg) then FindLongFrom(table[1..], arg, partials + 1, Some(table[0]))
    else FindLongFrom(table[1..], arg, partials, matched)
  }

  function FindLong(table: seq<Entry>, arg: string): Option<Entry> {
    FindLongFrom(table, arg, 0, None)
  }

  /** `k` is the position of the first exact match. */
  ghost predicate FirstExact(table: seq<Entry>, arg: string, k: int) {
    0 <= k < |table| && Exact(table[k], arg) && forall j :: 0 <= j < k ==> !Exact(table[j], arg)
  }

  ghost predicate NoExact(table: seq<Entry>, arg: string) {
    forall k :: 0 <= k < |table| ==> !Exact(table[k], arg)
  }

  lemma {:induction false} FindExact(table: seq<Entry>, arg: string, partials: nat, matched: Option<Entry>, k: int)
    requires FirstExact(table, arg, k)
    ensures FindLongFrom(table, arg, partials, matched) == Some(table[k])
    decreases |table|
  {
    if k > 0 {
      assert !Exact(table[0], arg);
      assert table[1..][k - 1] == table[k];
      assert forall j :: 0 <= j < k - 1 ==> table[1..][j] == table[j + 1];
      if Partial(table[0], arg) {
        FindExact(table[1..], arg, partials + 1, Some(table[0]), k - 1);
      } else {
        FindExact(table[1..], arg, partials, matched, k - 1);
      }
    }
  }

  ghost predicate NoPartial(table: seq<Entry>, arg: string) {
    forall k :: 0 <= k < |table| ==> !Partial(table[k], arg)
  }

  /** `k` is the position of the only partial match. */
  ghost predicate OnlyPartial(table: seq<Entry>, arg: string, k: int) {
    0 <= k < |table| && Partial(table[k], arg) && forall j :: 0 <= j < |table| && j != k ==> !Partial(table[j], arg)
  }

  lemma {:induction false} FindNone(table: seq<Entry>, arg: string, partials: nat, matched: Option<Entry>)
    requires NoExact(table, arg) && (NoPartial(table, arg) || partials >= 2)
    ensures FindLongFrom(table, arg, partials, matched) == if partials == 1 then matched else None
    decreases |table|
  {
    if table != [] {
      assert !Exact(table[0], arg);
      assert forall j :: 0 <= j < |table[1..]| ==> table[1..][j] == table[j + 1];
      if Partial(table[0], arg) {
        FindNone(table[1..], arg, partials + 1, Some(table[0]));
      } else {
        FindNone(table[1..], arg, partials, matched);
      }
    }
  }

  lemma {:induction false} FindOnly(table: seq<Entry>, arg: string, matched: Option<Entry>, k: int)
    requires NoExact(table, arg) && OnlyPartial(table, arg, k)
    ensures FindLongFrom(table, arg, 0, matched) == Some(table[k])
    decreases |table|
  {
    assert !Exact(table[0], arg);
    assert forall j :: 0 <= j < |table[1..]| ==> table[1..][j] == table[j + 1];
    if k == 0 {
      FindNone(table[1..], arg, 1, Some(table[0]));
    } else {
      assert !Partial(table[0], arg);
      FindOnly(table[1..], arg, matched, k - 1);
    }
  }

  lemma {:induction false} FindSeveral(table: seq<Entry>, arg: string, partials: nat, matched: Option<Entry>, j: int,
      k: int)
    requires NoExact(table, arg) && 0 <= j < k < |table| && Partial(table[j], arg) && Partial(table[k], arg)
    ensures FindLongFrom(table, arg, partials, matched) == None
    decreases |table|
  {
    assert !Exact(table[0], arg);
    assert forall m :: 0 <= m < |table[1..]| ==> table[1..][m] == table[m + 1];
    if j > 0 {
      if Partial(table[0], arg) {
        FindSeveral(table[1..], arg, partials + 1, Some(table[0]), j - 1, k - 1);
      } else {
        FindSeveral(table[1..], arg, partials, matched, j - 1, k - 1);
      }
    } else {
      FindLater(table[1..], arg, partials + 1, Some(table[0]), k - 1);
    }
  }

  lemma {:induction false} FindLater(table: seq<Entry>, arg: string, partials: nat, matched: Option<Entry>, k: int)
    requires NoExact(table, arg) && partials >= 1 && 0 <= k < |table| && Partial(table[k], arg)
    ensures FindLongFrom(table, arg, partials, matched) == None
    decreases |table|
  {
    assert !Exact(table[0], arg);
    assert forall m :: 0 <= m < |table[1..]| ==> table[1..][m] == table[m + 1];
    if Partial(table[0], arg) {
      FindNone(table[1..], arg, partials + 1, Some(table[0]));
    } else {
      FindLater(table[1..], arg, partials, matched, k - 1);
    }
  }

  /** A long option is the first exact match, or else the only partial one; otherwise there is none. */
  lemma FindLongMeaning(table: seq<Entry>, arg: string)
    ensures forall k :: FirstExact(table, arg, k) ==> FindLong(table, arg) == Some(table[k])
    ensures NoExact(table, arg) ==> forall k :: OnlyPartial(table, arg, k) ==> FindLong(table, arg) == Some(table[k])
    ensures NoExact(table, arg) && (forall k :: !OnlyPartial(table, arg, k)) ==> FindLong(table, arg) == None
  {
    forall k | FirstExact(table, arg, k) ensures FindLong(table, arg) == Some(table[k]) {
      FindExact(table, arg, 0, None, k);
    }
    if NoExact(table, arg) {
      forall k | OnlyPartial(table, arg, k) ensures FindLong(table, arg) == Some(table[k]) {
        FindOnly(table, arg, None, k);
      }
      if forall k :: !OnlyPartial(table, arg, k) {
        if NoPartial(table, arg) {
          FindNone(table, arg, 0, None);
        } else {
          var k :| 0 <= k < |table| && Partial(table[k], arg);
          assert !OnlyPartial(table, arg, k);
          var j :| 0 <= j < |table| && j != k && Partial(table[j], arg);
          FindSeveral(table, arg, 0, None, if j < k then j else k, if j < k then k else j);
        }
      }
    }
  }

  // ---------------------------------------------------------------- words

  datatype Word = Plain | Quote | Long(opt: string) | LongOnly(opt: string) | Short(opt: string)

  /** `classify_arg`. */
  function Classify(longOnly: bool, shortOpts: seq<int>, arg: string): Word {
    if |arg| == 0 || arg[0] != '-' || |arg| == 1 then Plain
    else if arg[1] == '-' then if |arg| == 2 then Quote else Long(arg[2..])
    else if longOnly && (|arg| > 2 || arg[1] as int !in shortOpts) then LongOnly(arg[1..])
    else Short(arg[1..])
  }
}
