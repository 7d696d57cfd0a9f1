/**
What the argp parser does with each kind of element, stated on argv, the options and the callbacks alone: the
shape of words, the value of an option, who takes an argument, and where `next` ends.
*/
module ArgpMeaning {
  import opened Options
  import opened ArgpOptions
  import opened ArgvExchange
  import opened ArgpMachine
  import opened ArgpReading

  // ---------------------------------------------------------------- words

  /** `w` is a dash with `opt` behind it, which does not begin with a dash. */
  ghost predicate Dashed(w: string, opt: string) {
    opt != "" && opt[0] != '-' && w == "-" + opt
  }

  /** With ARGP_LONG_ONLY a single dash makes a short option only of one letter that is the key of one. */
  ghost predicate OneLetter(shortOpts: seq<int>, opt: string) {
    |opt| == 1 && opt[0] as int in shortOpts
  }

  lemma ClassifyMeaning(longOnly: bool, shortOpts: seq<int>, w: string, opt: string)
    ensures var k := Classify(longOnly, shortOpts, w);
      && (k == Plain <==> w == "" || w[0] != '-' || w == "-")
      && (k == Quote <==> w == "--")
      && (k == Long(opt) <==> opt != "" && w == "--" + opt)
      && (k == LongOnly(opt) <==> Dashed(w, opt) && longOnly && !OneLetter(shortOpts, opt))
      && (k == Short(opt) <==> Dashed(w, opt) && (longOnly ==> OneLetter(shortOpts, opt)))
  {
    assert |w| > 1 && w[0] == '-' ==> w == "-" + w[1..];
    assert |w| > 2 && w[0] == '-' && w[1] == '-' ==> w == "--" + w[2..];
    assert ("-" + opt)[1..] == opt && ("--" + opt)[2..] == opt;
  }

  /** The value of a long option is the text behind its first '='. */
  lemma {:induction false} ValueMeaning(arg: string)
    ensures '=' !in Base(arg)
    ensures match Value(arg) { case None => arg == Base(arg) case Some(v) => arg == Base(arg) + "=" + v }
  {
    if arg != "" && arg[0] != '=' {
      ValueMeaning(arg[1..]);
      assert arg == [arg[0]] + arg[1..];
    } else if arg != "" {
      assert arg == "" + "=" + arg[1..];
    }
  }

  /** An option matches if its name is the text before the '=', and partially if that is a proper prefix of it. */
  lemma NamesMatch(e: Entry, arg: string)
    ensures Exact(e, arg) <==> e.opt.name == Some(Base(arg))
    ensures Partial(e, arg) <==> e.opt.name.Some? && Base(arg) < e.opt.name.value
  {
    if e.opt.name.Some? { MatchMeaning(arg, e.opt.name.value); }
  }

  // ---------------------------------------------------------------- arguments

  /** Group `g` understands neither the first of `words` nor all of them. */
  ghost predicate Declines(c: Config, calls: seq<Event>, words: seq<string>, g: nat)
    requires words != []
  {
    !c.takes(calls, ArgCall(g, words[0]), words[1..]) && !c.takes(calls, ArgsCall(g), words)
  }

  /** The taker is the first group that understands the argument, by itself if it can, or with the rest. */
  lemma {:induction false} OfferMeaning(c: Config, calls: seq<Event>, words: seq<string>, from: nat)
    requires from <= c.groups && words != []
    ensures match OfferFrom(c, calls, words, from) {
        case Each(g) =>
          && from <= g < c.groups && c.takes(calls, ArgCall(g, words[0]), words[1..])
          && (forall h :: from <= h < g ==> Declines(c, calls, words, h))
        case Whole(g) =>
          && from <= g < c.groups && c.takes(calls, ArgsCall(g), words)
          && !c.takes(calls, ArgCall(g, words[0]), words[1..])
          && (forall h :: from <= h < g ==> Declines(c, calls, words, h))
        case Refused => forall h :: from <= h < c.groups ==> Declines(c, calls, words, h)
      }
    decreases c.groups - from
  {
    if from < c.groups && Declines(c, calls, words, from) {
      OfferMeaning(c, calls, words, from + 1);
    }
  }

  /** A callback that moves `next` on by `m` from `i`, but not beyond the end. */
  ghost predicate MovedOn(argc: nat, i: nat, m: nat, j: nat) {
    j == if i + m < argc then i + m else argc
  }

  /** One argument, where only arguments are left. */
  lemma ArgumentStep(c: Config, s: State)
    requires Proper(s) && s.argsOnly && s.next < |s.argv|
    ensures var (u, st) := Step(c, s);
      var words := s.argv[s.next..];
      && u == s.(next := u.next, calls := u.calls)
      && match OfferFrom(c, s.calls, words, 0) {
        case Each(g) =>
          && st == Continue && u.calls == s.calls + [ArgCall(g, s.argv[s.next])]
          && MovedOn(|s.argv|, s.next + 1, c.moves(s.calls, ArgCall(g, s.argv[s.next]), s.argv[s.next + 1..]), u.next)
        case Whole(g) => st == Continue && u.calls == s.calls + [ArgsCall(g)] && u.next == |s.argv|
        case Refused => st == Exhausted && u == s
      }
  {
    hide OfferFrom;
  }

  // ---------------------------------------------------------------- options

  /**
  The step from `s` to `u` is the call for option `e` with this value, made when `next` was `i`: the callback alone
  moves it on from there.
  */
  ghost predicate Called(c: Config, s: State, u: State, i: nat, e: Entry, value: Option<string>)
  {
    var call := OptCall(e.group, e.opt.key, value);
    && i <= |s.argv| && u == s.(next := u.next, nextchar := u.nextchar, calls := s.calls + [call])
    && MovedOn(|s.argv|, i, c.moves(s.calls, call, s.argv[i..]), u.next)
  }

  /**
  The next letter of a cluster. Without an argument the cluster goes on; the rest of the cluster is the argument
  if there is a rest; an optional argument that is not attached is absent; a mandatory one is the element behind the
  cluster, which `next` has then passed.
  */
  lemma ShortStep(c: Config, s: State)
    requires Proper(s) && s.nextchar != ""
    ensures var (u, st) := Step(c, s);
      var letter, rest := s.nextchar[0] as int, s.nextchar[1..];
      if letter >= 128 then st == Stopped(NotAscii) && u == s
      else
        match FindShort(c.table, letter) {
          case None => st == Stopped(UnknownOption) && u == s
          case Some(e) =>
            if !e.opt.hasArg then st == Continue && Called(c, s, u, s.next, e, None) && u.nextchar == rest
            else if rest != "" then st == Continue && Called(c, s, u, s.next, e, Some(rest)) && u.nextchar == ""
            else if e.opt.optional then st == Continue && Called(c, s, u, s.next, e, None) && u.nextchar == ""
            else if s.next == |s.argv| then st == Stopped(MissingArgument) && u == s
            else st == Continue && Called(c, s, u, s.next + 1, e, Some(s.argv[s.next])) && u.nextchar == ""
        }
  {
    hide FindShort;
  }

  /** A long option, with its argument attached by '=', absent, or in the element behind it. */
  lemma LongStep(c: Config, s: State, opt: string)
    requires Proper(s) && s.nextchar == "" && !s.argsOnly && s.next < |s.argv|
    requires Classify(c.longOnly, c.shortOpts, s.argv[s.next]) in {Long(opt), LongOnly(opt)}
    ensures var (u, st) := Step(c, s);
      match FindLong(c.table, opt) {
        case None => st == Stopped(UnknownOption) && u == s.(next := s.next + 1)
        case Some(e) =>
          if '=' in opt then
            if e.opt.hasArg then
              && st == Continue && u.nextchar == ""
              && exists v :: AfterEquals(opt, v) && Called(c, s, u, s.next + 1, e, Some(v))
            else st == Stopped(UnexpectedArgument) && u == s.(next := s.next + 1)
          else if !e.opt.hasArg || e.opt.optional then
            st == Continue && Called(c, s, u, s.next + 1, e, None) && u.nextchar == ""
          else if s.next + 1 == |s.argv| then st == Stopped(MissingArgument) && u == s.(next := s.next + 1)
          else st == Continue && Called(c, s, u, s.next + 2, e, Some(s.argv[s.next + 1])) && u.nextchar == ""
      }
  {
    hide FindLong, Classify, Value;
    ValueMeaning(opt);
    if Value(opt).Some? {
      assert AfterEquals(opt, Value(opt).value) by { assert opt[..|Base(opt)|] == Base(opt); }
    }
  }

  /** `v` is what stands behind the first '=' of `opt`. */
  ghost predicate AfterEquals(opt: string, v: string) {
    |v| < |opt| && opt[|opt| - |v| - 1] == '=' && opt[|opt| - |v|..] == v && '=' !in opt[..|opt| - |v| - 1]
  }

  // ---------------------------------------------------------------- mandatory arguments in readings and runs

  /** `w` is option `e` with a mandatory argument that is not attached to it. */
  ghost predicate AsksNext(c: Config, w: string, e: Entry) {
    && e.opt.hasArg && !e.opt.optional
    && match Classify(c.longOnly, c.shortOpts, w) {
      case Short(opt) => |opt| == 1 && opt[0] as int < 128 && FindShort(c.table, opt[0] as int) == Some(e)
      case Long(opt) => '=' !in opt && FindLong(c.table, opt) == Some(e)
      case LongOnly(opt) => '=' !in opt && FindLong(c.table, opt) == Some(e)
      case _ => false
    }
  }

  /** The reading takes the element behind the option for its argument, keeps it with the options, and passes it. */
  lemma ArgumentRead(c: Config, calls: seq<Event>, argv: seq<string>, i: nat, e: Entry) returns (j: nat)
    requires i + 1 < |argv| && AsksNext(c, argv[i], e)
    ensures var call := OptCall(e.group, e.opt.key, Some(argv[i + 1]));
      && i + 2 <= j <= |argv|
      && Read(c, calls, argv, i, "") == Before([call], argv[i..j], [], Read(c, calls + [call], argv, j, ""))
  {
    hide FindShort, FindLong, Value;
    var call := OptCall(e.group, e.opt.key, Some(argv[i + 1]));
    j := Advance(c, calls, argv, i + 2, call);
    match Classify(c.longOnly, c.shortOpts, argv[i])
    case Short(opt) =>
      var k := TakeShort(c, calls, argv, i + 1, opt);
      assert opt[1..] == "" && k == Take(call, j, "");
      assert Read(c, calls, argv, i + 1, opt) == ReadTake(c, calls, argv, i + 1, i + 1, k, |opt|);
      BeforeBefore([], [argv[i]], [], [call], argv[i + 1..j], [], Read(c, calls + [call], argv, j, ""));
      assert [argv[i]] + argv[i + 1..j] == argv[i..j] && [] + [call] == [call];
    case Long(opt) => NoValue(opt);
    case LongOnly(opt) => NoValue(opt);
  }

  lemma NoValue(opt: string)
    ensures Value(opt).Some? <==> '=' in opt
  {
    ValueMeaning(opt);
    if Value(opt).Some? { assert opt[|Base(opt)|] == '='; }
  }

  lemma {:induction false} CallsGrow(c: Config, s: State)
    requires Proper(s)
    ensures s.calls <= Run(c, s).0.calls
    decreases !s.argsOnly, |s.argv| - s.next, |s.nextchar|
  {
    hide Rotated, FindShort, FindLong, Value, Classify, OfferFrom, TakeShort, TakeLong;
    StepProper(c, s);
    var (u, st) := Step(c, s);
    if st == Continue { CallsGrow(c, u); }
  }

  /** Whatever the ordering, a run that starts at such an option first calls it with the element behind it. */
  lemma ArgumentRun(c: Config, argv: seq<string>, start: nat, e: Entry)
    requires start + 1 < |argv| && AsksNext(c, argv[start], e)
    ensures var (f, st) := Run(c, Start(argv, start));
      && f.calls != [] && f.calls[0] == OptCall(e.group, e.opt.key, Some(argv[start + 1]))
      && (st == Exhausted && c.ordering == Permute ==> argv[..start + 2] <= f.argv)
  {
    hide Run, Read;
    FirstCall(c, argv, start, e);
    if c.ordering == Permute {
      PermuteRun(c, argv, start);
      var j := ArgumentRead(c, [], argv, start, e);
      var r := Read(c, [], argv, start, "");
      assert r.fault.None? ==> argv[start..j] <= r.opts;
    }
  }

  lemma FirstCall(c: Config, argv: seq<string>, start: nat, e: Entry)
    requires start + 1 < |argv| && AsksNext(c, argv[start], e)
    ensures var f := Run(c, Start(argv, start)).0;
      f.calls != [] && f.calls[0] == OptCall(e.group, e.opt.key, Some(argv[start + 1]))
  {
    hide FindShort, FindLong, Classify, Step;
    var s := Start(argv, start);
    StepProper(c, s);
    var u := Step(c, s).0;
    match Classify(c.longOnly, c.shortOpts, argv[start])
    case Short(opt) =>
      ClusterStep(c, s, opt);
      ShortStep(c, u);
      StepProper(c, u);
      CallsGrow(c, Step(c, u).0);
    case Long(opt) =>
      LongStep(c, s, opt);
      CallsGrow(c, u);
    case LongOnly(opt) =>
      LongStep(c, s, opt);
      CallsGrow(c, u);
  }

  /** A short option word is stepped over, and its letters are what is left to read. */
  lemma ClusterStep(c: Config, s: State, opt: string)
    requires Proper(s) && s.nextchar == "" && !s.argsOnly && s.next < |s.argv|
    requires Classify(c.longOnly, c.shortOpts, s.argv[s.next]) == Short(opt)
    ensures Step(c, s) == (s.(next := s.next + 1, nextchar := opt), Continue)
  {
    hide Classify;
  }

  // ---------------------------------------------------------------- words that are no options

  /**
  A word that is no option. In order, it is offered as it would be if only arguments were left; with required order it
  is left for when they are; to be permuted, it is stepped over and nobody is called.
  */
  lemma WordStep(c: Config, s: State)
    requires Proper(s) && s.nextchar == "" && !s.argsOnly && s.next < |s.argv|
    requires Classify(c.longOnly, c.shortOpts, s.argv[s.next]) == Plain
    ensures var (u, st) := Step(c, s);
      match c.ordering {
        case InOrder => Step(c, s.(argsOnly := true)) == (u.(argsOnly := true), st)
        case RequireOrder => st == Continue && u == s.(argsOnly := true)
        case Permute => st == Continue && u.calls == s.calls && u.next == s.next + 1 == u.last && !u.argsOnly
      }
  {
    hide Classify, OfferFrom, Rotated;
  }

  // ---------------------------------------------------------------- options before arguments

  ghost predicate OptionsFirst(calls: seq<Event>) {
    forall a, b :: 0 <= a < b < |calls| && calls[b].OptCall? ==> calls[a].OptCall?
  }

  /** A step makes at most one call, for an argument exactly if only arguments are left, unless in order. */
  lemma StepCalls(c: Config, s: State)
    requires Proper(s) && !c.ordering.InOrder?
    ensures var u := Step(c, s).0;
      u.calls == s.calls || exists call :: u.calls == s.calls + [call] && (call.OptCall? <==> !s.argsOnly)
  {
    hide FindShort, FindLong, Value, Classify, OfferFrom, Rotated;
  }

  /** Unless it is in order, a run makes all calls for options before those for arguments. */
  lemma {:induction false} RunOptionsFirst(c: Config, s: State)
    requires Proper(s) && !c.ordering.InOrder? && OptionsFirst(s.calls)
    requires !s.argsOnly ==> forall k :: 0 <= k < |s.calls| ==> s.calls[k].OptCall?
    ensures OptionsFirst(Run(c, s).0.calls)
    decreases !s.argsOnly, |s.argv| - s.next, |s.nextchar|
  {
    hide Step;
    StepProper(c, s);
    StepCalls(c, s);
    var (u, st) := Step(c, s);
    if st == Continue { RunOptionsFirst(c, u); }
  }

  /** Words without a dash in front, up to a "--" or the end, are non-options, and so is everything behind the "--". */
  lemma {:induction false} PlainRead(c: Config, calls: seq<Event>, argv: seq<string>, i: nat, end: nat)
    requires i <= end <= |argv| && (end == |argv| || argv[end] == "--")
    requires forall k :: i <= k < end ==> argv[k] == "" || argv[k][0] != '-' || argv[k] == "-"
    ensures var behind := if end < |argv| then argv[end + 1..] else [];
      Read(c, calls, argv, i, "") == Reading([], [], argv[i..end] + behind, end < |argv|, None)
    decreases end - i
  {
    hide Read, Classify;
    var behind := if end < |argv| then argv[end + 1..] else [];
    WordRead(c, calls, argv, i);
    if i < |argv| { ClassifyMeaning(c.longOnly, c.shortOpts, argv[i], ""); }
    if i == end {
      assert argv[i..end] + behind == behind;
    } else {
      PlainRead(c, calls, argv, i + 1, end);
      assert argv[i..end] + behind == [argv[i]] + (argv[i + 1..end] + behind);
    }
  }

  lemma WordRead(c: Config, calls: seq<Event>, argv: seq<string>, i: nat)
    requires i <= |argv|
    ensures i == |argv| ==> Read(c, calls, argv, i, "") == Reading([], [], [], false, None)
    ensures i < |argv| && Classify(c.longOnly, c.shortOpts, argv[i]) == Quote ==>
      Read(c, calls, argv, i, "") == Reading([], [], argv[i + 1..], true, None)
    ensures i < |argv| && Classify(c.longOnly, c.shortOpts, argv[i]) == Plain ==>
      var r := Read(c, calls, argv, i + 1, "");
      Read(c, calls, argv, i, "") == Reading(r.calls, r.opts, [argv[i]] + r.nons, r.quote, r.fault)
  {
    hide Classify, TakeLong, ReadTake;
    if i < |argv| {
      var r := Read(c, calls, argv, i + 1, "");
      assert [] + r.calls == r.calls && [] + r.opts == r.opts;
    }
  }
}
