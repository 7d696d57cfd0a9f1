/** Runs of the argp machine, for each ordering, against a reading of argv from left to right. */
module ArgpReading {
  import opened Options
  import opened ArgpOptions
  import opened ArgvExchange
  import opened ArgpMachine

  /**
  What a left-to-right reading finds: the option calls, the elements that are options or taken by
  options, the other elements, whether a "--" stands between them, and a fault if one ends the reading.
  */
  datatype Reading = Reading(calls: seq<Event>, opts: seq<string>, nons: seq<string>, quote: bool, fault: Option<Stop>)

  function Before(calls: seq<Event>, opts: seq<string>, nons: seq<string>, r: Reading): Reading {
    Reading(calls + r.calls, opts + r.opts, nons + r.nons, r.quote, r.fault)
  }

  /** The reading from element `i` on, or from what is left of a cluster, after the calls in `calls`. */
  function Read(c: Config, calls: seq<Event>, argv: seq<string>, i: nat, s: string): Reading
    requires i <= |argv|
    decreases |argv| - i, |s|
  {
    if s != "" then ReadTake(c, calls, argv, i, i, TakeShort(c, calls, argv, i, s), |s|)
    else if i == |argv| then Reading([], [], [], false, None)
    else
      match Classify(c.longOnly, c.shortOpts, argv[i])
      case Plain => Before([], [], [argv[i]], Read(c, calls, argv, i + 1, ""))
      case Quote => Reading([], [], argv[i + 1..], true, None)
      case Long(opt) => ReadTake(c, calls, argv, i, i + 1, TakeLong(c, calls, argv, i + 1, opt), 0)
      case LongOnly(opt) => ReadTake(c, calls, argv, i, i + 1, TakeLong(c, calls, argv, i + 1, opt), 0)
      case Short(opt) => Before([], [argv[i]], [], Read(c, calls, argv, i + 1, opt))
  }

  /** The elements from `from` up to where the option leaves off belong to it. */
  function ReadTake(c: Config, calls: seq<Event>, argv: seq<string>, from: nat, i: nat, k: Take, ghost room: nat)
    : Reading
    requires from <= i <= |argv|
    requires k.Take? ==> i <= k.next <= |argv| && (k.next > from || |k.rest| < room)
    decreases |argv| - from, room, 0
  {
    match k
    case Fault(why) => Reading([], [], [], false, Some(why))
    case Take(call, next, rest) => Before([call], argv[from..next], [], Read(c, calls + [call], argv, next, rest))
  }

  /** The calls for a list of arguments, and the arguments that nobody takes. */
  datatype Tail = Tail(calls: seq<Event>, left: seq<string>)

  function ArgTail(c: Config, calls: seq<Event>, words: seq<string>): Tail
    decreases |words|
  {
    if words == [] then Tail([], [])
    else
      match Offer(c, calls, words)
      case Each(g) =>
        var call := ArgCall(g, words[0]);
        var t := ArgTail(c, calls + [call], words[Advance(c, calls, words, 1, call)..]);
        Tail([call] + t.calls, t.left)
      case Whole(g) => Tail([ArgsCall(g)], [])
      case Refused => Tail([], words)
  }

  function QuoteWord(r: Reading): seq<string> {
    if r.quote then ["--"] else []
  }

  // ---------------------------------------------------------------- arguments only

  /** A callback sees the elements from `next` on, wherever they stand. */
  lemma AdvanceSame(c: Config, calls: seq<Event>, a: seq<string>, i: nat, b: seq<string>, j: nat, call: Event)
    requires i <= |a| && j <= |b| && a[i..] == b[j..]
    ensures Advance(c, calls, a, i, call) - i == Advance(c, calls, b, j, call) - j
  {
    assert |a[i..]| == |a| - i && |b[j..]| == |b| - j;
  }

  /** Once only arguments are left, the run makes the calls of `ArgTail` and stops at the first one refused. */
  lemma {:induction false} ArgsRun(c: Config, s: State)
    requires Proper(s) && s.argsOnly
    ensures TailRun(s, ArgTail(c, s.calls, s.argv[s.next..]), Run(c, s))
    decreases |s.argv| - s.next
  {
    hide OfferFrom, FindShort, FindLong, Classify, Value, Rotated, TakeShort, TakeLong, Advance, TailRun;
    StepProper(c, s);
    var words := s.argv[s.next..];
    var u := Step(c, s).0;
    if s.next == |s.argv| {
      TailNone(s, words);
    } else {
      match Offer(c, s.calls, words)
      case Each(g) =>
        var call := ArgCall(g, words[0]);
        assert words[1..] == s.argv[s.next + 1..];
        AdvanceSame(c, s.calls, s.argv, s.next + 1, words, 1, call);
        assert u.argv[u.next..] == words[Advance(c, s.calls, words, 1, call)..];
        ArgsRun(c, u);
        TailMore(s, u, call, ArgTail(c, u.calls, u.argv[u.next..]), Run(c, s));
      case Whole(g) =>
        ArgsRun(c, u);
        assert u.argv[u.next..] == [];
        TailMore(s, u, ArgsCall(g), Tail([], []), Run(c, s));
        assert [ArgsCall(g)] + [] == [ArgsCall(g)];
      case Refused =>
        TailNone(s, words);
    }
  }

  /** The run from `s` ends as `t` says, with argv left alone. */
  ghost predicate TailRun(s: State, t: Tail, r: (State, Status)) {
    && r.1 == Exhausted && r.0.argv == s.argv && r.0.calls == s.calls + t.calls
    && r.0.next <= |s.argv| && s.argv[r.0.next..] == t.left
  }

  lemma TailNone(s: State, words: seq<string>)
    requires s.next <= |s.argv| && words == s.argv[s.next..]
    ensures TailRun(s, Tail([], words), (s, Exhausted))
  {
    assert s.calls + [] == s.calls;
  }

  lemma TailMore(s: State, u: State, call: Event, t: Tail, r: (State, Status))
    requires u.argv == s.argv && u.calls == s.calls + [call] && TailRun(u, t, r)
    ensures TailRun(s, Tail([call] + t.calls, t.left), r)
  {
    assert (s.calls + [call]) + t.calls == s.calls + ([call] + t.calls);
  }

  // ---------------------------------------------------------------- PERMUTE

  /** The elements before `next`: first all `front`, with the skipped block `nons` set in where it stands. */
  ghost predicate Layout(s: State, front: seq<string>, nons: seq<string>)
    requires Proper(s)
  {
    s.argv[..s.first] + s.argv[s.last..s.next] == front && s.argv[s.first..s.last] == nons
  }

  /** The machine has read up to `next`, with options `opts` and non-options `nons` so far. */
  ghost predicate Permuting(c: Config, orig: seq<string>, start: nat, s: State, opts: seq<string>, nons: seq<string>) {
    && c.ordering == Permute && Proper(s) && !s.argsOnly && |s.argv| == |orig| && start <= s.next
    && s.argv[s.next..] == orig[s.next..]
    && Layout(s, orig[..start] + opts, nons)
    && Read(c, [], orig, start, "") == Before(s.calls, opts, nons, Read(c, s.calls, orig, s.next, s.nextchar))
  }

  lemma PermuteStart(c: Config, argv: seq<string>, start: nat)
    requires c.ordering == Permute && start <= |argv|
    ensures Permuting(c, argv, start, Start(argv, start), [], [])
  {
    var s := Start(argv, start);
    assert s.argv[..0] + s.argv[0..start] == argv[..start] == argv[..start] + [];
  }

  lemma BeforeBefore(c1: seq<Event>, o1: seq<string>, n1: seq<string>, c2: seq<Event>, o2: seq<string>,
      n2: seq<string>, r: Reading)
    ensures Before(c1, o1, n1, Before(c2, o2, n2, r)) == Before(c1 + c2, o1 + o2, n1 + n2, r)
  {
    assert c1 + (c2 + r.calls) == c1 + c2 + r.calls;
    assert o1 + (o2 + r.opts) == o1 + o2 + r.opts;
    assert n1 + (n2 + r.nons) == n1 + n2 + r.nons;
  }

  /** The machine takes elements of argv exactly as the reading takes those of the original. */
  lemma TakeSame(c: Config, calls: seq<Event>, a: seq<string>, b: seq<string>, i: nat, s: string)
    requires i <= |a| == |b| && a[i..] == b[i..]
    ensures s != "" ==> TakeShort(c, calls, a, i, s) == TakeShort(c, calls, b, i, s)
    ensures TakeLong(c, calls, a, i, s) == TakeLong(c, calls, b, i, s)
    ensures i < |a| ==> a[i] == b[i] && a[i + 1..] == b[i + 1..]
  {
    hide FindShort, FindLong, Value;
    if i < |a| {
      assert a[i] == a[i..][0] && b[i] == b[i..][0];
      assert a[i + 1..] == a[i..][1..] && b[i + 1..] == b[i..][1..];
    }
  }

  /** Elements that belong to an option extend the front. */
  lemma LayoutGrows(s: State, front: seq<string>, nons: seq<string>, j: nat)
    requires Proper(s) && Layout(s, front, nons) && s.next <= j <= |s.argv|
    ensures s.argv[..s.first] + s.argv[s.last..j] == front + s.argv[s.next..j]
  {
    assert s.argv[s.last..j] == s.argv[s.last..s.next] + s.argv[s.next..j];
  }

  /** The option step, short or long: it reads from index `i` and leaves off at `k.next`. */
  lemma PermuteTake(c: Config, orig: seq<string>, start: nat, s: State, opts: seq<string>, nons: seq<string>, i: nat,
      k: Take, room: nat)
    requires Permuting(c, orig, start, s, opts, nons) && s.next <= i <= |s.argv|
    requires k.Take? && i <= k.next <= |orig| && (k.next > s.next || |k.rest| < room)
    requires Read(c, s.calls, orig, s.next, s.nextchar) == ReadTake(c, s.calls, orig, s.next, i, k, room)
    ensures Permuting(c, orig, start, Applied(s.(next := i), k).0, opts + orig[s.next..k.next], nons)
  {
    hide Read;
    var u := Applied(s.(next := i), k).0;
    var taken := orig[s.next..k.next];
    BeforeBefore(s.calls, opts, nons, [k.call], taken, [], Read(c, s.calls + [k.call], orig, k.next, k.rest));
    assert nons + [] == nons;
    LayoutGrows(s, orig[..start] + opts, nons, k.next);
    assert s.argv[s.next..k.next] == s.argv[s.next..][..k.next - s.next] == taken;
    assert (orig[..start] + opts) + taken == orig[..start] + (opts + taken);
    assert u.argv[k.next..] == s.argv[s.next..][k.next - s.next..] == orig[k.next..];
  }

  lemma PermuteCluster(c: Config, orig: seq<string>, start: nat, s: State, opts: seq<string>, nons: seq<string>,
      opt: string)
    requires Permuting(c, orig, start, s, opts, nons) && s.nextchar == "" && s.next < |s.argv|
    requires Read(c, s.calls, orig, s.next, "")
      == Before([], [orig[s.next]], [], Read(c, s.calls, orig, s.next + 1, opt))
    ensures Permuting(c, orig, start, s.(next := s.next + 1, nextchar := opt), opts + [orig[s.next]], nons)
  {
    hide Read;
    BeforeBefore(s.calls, opts, nons, [], [orig[s.next]], [], Read(c, s.calls, orig, s.next + 1, opt));
    assert nons + [] == nons && s.calls + [] == s.calls;
    TakeSame(c, s.calls, s.argv, orig, s.next, "");
    LayoutGrows(s, orig[..start] + opts, nons, s.next + 1);
    assert s.argv[s.next..s.next + 1] == [orig[s.next]];
    assert (orig[..start] + opts) + [orig[s.next]] == orig[..start] + (opts + [orig[s.next]]);
  }

  /** The skipped block moves up behind the options read since. */
  lemma ExchangedLayout(s: State, front: seq<string>, nons: seq<string>)
    requires Proper(s) && Layout(s, front, nons)
    ensures var x := Exchanged(s);
      && x.first == |front| && x.last == s.next && x.argv[..x.first] == front && x.argv[x.first..x.last] == nons
      && x.argv[s.next..] == s.argv[s.next..] && |x.argv| == |s.argv|
  {
    var x := Exchanged(s);
    assert x.argv == front + nons + s.argv[s.next..];
  }

  lemma PermutePlain(c: Config, orig: seq<string>, start: nat, s: State, opts: seq<string>, nons: seq<string>)
    requires Permuting(c, orig, start, s, opts, nons) && s.nextchar == "" && s.next < |s.argv|
    requires Read(c, s.calls, orig, s.next, "")
      == Before([], [], [orig[s.next]], Read(c, s.calls, orig, s.next + 1, ""))
    ensures Permuting(c, orig, start, PlainStep(c, s).0, opts, nons + [orig[s.next]])
  {
    hide Read, Rotated;
    var u := PlainStep(c, s).0;
    BeforeBefore(s.calls, opts, nons, [], [], [orig[s.next]], Read(c, s.calls, orig, s.next + 1, ""));
    assert opts + [] == opts && s.calls + [] == s.calls;
    TakeSame(c, s.calls, s.argv, orig, s.next, "");
    var front := orig[..start] + opts;
    if s.first == s.last {
      assert nons == [];
      assert s.argv[..s.next] == s.argv[..s.first] + s.argv[s.last..s.next] == front;
      assert u.argv[u.first..u.last] == [orig[s.next]];
      assert u.argv[..u.first] + u.argv[u.last..u.next] == front;
    } else if s.last != s.next {
      ExchangedLayout(s, front, nons);
      var x := Exchanged(s);
      TakeSame(c, s.calls, x.argv, s.argv, s.next, "");
      assert u.argv[u.first..u.last] == x.argv[x.first..x.last] + [x.argv[s.next]];
      assert u.argv[..u.first] + u.argv[u.last..u.next] == front;
    } else {
      assert u.argv[u.first..u.last] == s.argv[s.first..s.last] + [s.argv[s.next]];
      assert u.argv[..u.first] + u.argv[u.last..u.next] == s.argv[..s.first] + s.argv[s.last..s.next];
    }
  }

  /** The result of a run in PERMUTE mode. */
  ghost predicate Permuted(c: Config, orig: seq<string>, start: nat, f: State, st: Status)
    requires start <= |orig|
  {
    var r := Read(c, [], orig, start, "");
    match r.fault
    case Some(why) => st == Stopped(why) && f.calls == r.calls
    case None =>
      && st == Exhausted && f.argv == orig[..start] + r.opts + QuoteWord(r) + r.nons
      && var t := ArgTail(c, r.calls, r.nons);
         f.calls == r.calls + t.calls && f.next <= |f.argv| && f.argv[f.next..] == t.left
  }

  lemma PermuteEnd(c: Config, orig: seq<string>, start: nat, s: State, opts: seq<string>, nons: seq<string>)
    requires Permuting(c, orig, start, s, opts, nons) && s.nextchar == "" && s.next == |s.argv|
    ensures Permuted(c, orig, start, Run(c, s).0, Run(c, s).1)
  {
    hide Rotated;
    var r := Read(c, [], orig, start, "");
    assert r == Reading(s.calls + [], opts + [], nons + [], false, None);
    assert r.calls == s.calls && r.opts == opts && r.nons == nons;
    var front := orig[..start] + opts;
    StepProper(c, s);
    if s.first == s.last {
      assert nons == [];
      assert s.argv == s.argv[..s.first] + s.argv[s.last..s.next] == front;
      assert front + [] + [] == front && s.calls + [] == s.calls;
    } else {
      ExchangedLayout(s, front, nons);
      var x := Exchanged(s);
      assert x.argv == x.argv[..x.first] + x.argv[x.first..];
      assert x.argv[x.first..] == nons;
      assert front + [] + nons == x.argv;
      ArgsRun(c, Step(c, s).0);
    }
  }

  /** Behind a "--" everything is a non-option; the skipped block goes in between. */
  lemma QuoteLayout(s: State, orig: seq<string>, front: seq<string>, nons: seq<string>)
    requires Proper(s) && !s.argsOnly && Layout(s, front, nons) && s.next < |s.argv| == |orig|
    requires s.argv[s.next] == "--" && s.argv[s.next + 1..] == orig[s.next + 1..]
    ensures var u := QuoteStep(s).0;
      && u.argv == front + ["--"] + (nons + orig[s.next + 1..]) && u.next <= |u.argv|
      && u.argv[u.next..] == nons + orig[s.next + 1..] && u.calls == s.calls && u.argsOnly
  {
    var rest := orig[s.next + 1..];
    var u := s.(next := s.next + 1);
    LayoutGrows(s, front, nons, s.next + 1);
    assert s.argv[s.next..s.next + 1] == ["--"];
    if s.first != s.last {
      assert Layout(u, front + ["--"], nons);
      ExchangedLayout(u, front + ["--"], nons);
      hide Exchanged, Rotated, Layout;
      var x := Exchanged(u);
      assert x.argv == x.argv[..x.first] + x.argv[x.first..x.last] + x.argv[x.last..];
      assert x.argv[x.first..] == nons + rest;
    } else {
      assert nons == [] && nons + rest == rest;
      FrontSplit(s.argv, s.first, s.next + 1);
    }
  }

  lemma FrontSplit<T>(argv: seq<T>, i: nat, n: nat)
    requires i <= n <= |argv|
    ensures argv == (argv[..i] + argv[i..n]) + argv[n..]
  {
  }

  lemma PermuteQuote(c: Config, orig: seq<string>, start: nat, s: State, opts: seq<string>, nons: seq<string>)
    requires Permuting(c, orig, start, s, opts, nons) && s.nextchar == "" && s.next < |s.argv|
    requires orig[s.next] == "--"
    requires Read(c, s.calls, orig, s.next, "") == Reading([], [], orig[s.next + 1..], true, None)
    requires Step(c, s) == QuoteStep(s)
    ensures Permuted(c, orig, start, Run(c, s).0, Run(c, s).1)
  {
    hide Rotated, Classify, Layout, QuoteStep, Read;
    var r := Read(c, [], orig, start, "");
    assert r.calls == s.calls && r.opts == opts && r.nons == nons + orig[s.next + 1..] by {
      assert s.calls + [] == s.calls && opts + [] == opts;
    }
    TakeSame(c, s.calls, s.argv, orig, s.next, "");
    QuoteLayout(s, orig, orig[..start] + opts, nons);
    StepProper(c, s);
    QuoteContinues(s);
    ArgsRun(c, QuoteStep(s).0);
  }

  lemma QuoteContinues(s: State)
    requires Proper(s) && s.next < |s.argv|
    ensures QuoteStep(s).1 == Continue
  {
  }

  /** A fault ends the run where it ends the reading. */
  lemma PermuteFault(c: Config, orig: seq<string>, start: nat, s: State, opts: seq<string>, nons: seq<string>,
      why: Stop)
    requires Permuting(c, orig, start, s, opts, nons)
    requires Read(c, s.calls, orig, s.next, s.nextchar) == Reading([], [], [], false, Some(why))
    requires Step(c, s).1 == Stopped(why) && Step(c, s).0.calls == s.calls
    ensures Permuted(c, orig, start, Run(c, s).0, Run(c, s).1)
  {
    hide Step, Layout, Read;
    assert s.calls + [] == s.calls;
  }

  lemma {:induction false} PermuteFrom(c: Config, orig: seq<string>, start: nat, s: State, opts: seq<string>,
      nons: seq<string>)
    requires Permuting(c, orig, start, s, opts, nons)
    ensures Permuted(c, orig, start, Run(c, s).0, Run(c, s).1)
    decreases |s.argv| - s.next, |s.nextchar|
  {
    hide Rotated, FindShort, FindLong, Classify, Layout, Value, OfferFrom;
    StepProper(c, s);
    TakeSame(c, s.calls, s.argv, orig, s.next, s.nextchar);
    if s.nextchar != "" {
      var k := TakeShort(c, s.calls, orig, s.next, s.nextchar);
      if k.Take? {
        PermuteTake(c, orig, start, s, opts, nons, s.next, k, |s.nextchar|);
        PermuteFrom(c, orig, start, Step(c, s).0, opts + orig[s.next..k.next], nons);
      } else {
        PermuteFault(c, orig, start, s, opts, nons, k.why);
      }
    } else if s.next == |s.argv| {
      PermuteEnd(c, orig, start, s, opts, nons);
    } else {
      PermuteWord(c, orig, start, s, opts, nons);
    }
  }

  lemma {:induction false} PermuteWord(c: Config, orig: seq<string>, start: nat, s: State, opts: seq<string>,
      nons: seq<string>)
    requires Permuting(c, orig, start, s, opts, nons) && s.nextchar == "" && s.next < |s.argv|
    requires s.argv[s.next] == orig[s.next]
    ensures Permuted(c, orig, start, Run(c, s).0, Run(c, s).1)
    decreases |s.argv| - s.next, |s.nextchar|, 1
  {
    hide Rotated, FindShort, FindLong, Layout, Value, OfferFrom;
    StepProper(c, s);
    TakeSame(c, s.calls, s.argv, orig, s.next, "");
    match Classify(c.longOnly, c.shortOpts, orig[s.next])
    case Plain =>
      PermutePlain(c, orig, start, s, opts, nons);
      PermuteFrom(c, orig, start, Step(c, s).0, opts, nons + [orig[s.next]]);
    case Quote =>
      assert orig[s.next] == "--";
      PermuteQuote(c, orig, start, s, opts, nons);
    case Long(opt) => PermuteLong(c, orig, start, s, opts, nons, opt);
    case LongOnly(opt) => PermuteLong(c, orig, start, s, opts, nons, opt);
    case Short(opt) =>
      PermuteCluster(c, orig, start, s, opts, nons, opt);
      PermuteFrom(c, orig, start, Step(c, s).0, opts + [orig[s.next]], nons);
  }

  lemma {:induction false} PermuteLong(c: Config, orig: seq<string>, start: nat, s: State, opts: seq<string>,
      nons: seq<string>, opt: string)
    requires Permuting(c, orig, start, s, opts, nons) && s.nextchar == "" && s.next < |s.argv|
    requires Step(c, s) == Applied(s.(next := s.next + 1), TakeLong(c, s.calls, s.argv, s.next + 1, opt))
    requires Read(c, s.calls, orig, s.next, "")
      == ReadTake(c, s.calls, orig, s.next, s.next + 1, TakeLong(c, s.calls, orig, s.next + 1, opt), 0)
    ensures Permuted(c, orig, start, Run(c, s).0, Run(c, s).1)
    decreases |s.argv| - s.next, |s.nextchar|, 0
  {
    hide Rotated, FindShort, FindLong, Layout, Value, OfferFrom, Classify, TakeLong;
    StepProper(c, s);
    TakeSame(c, s.calls, s.argv, orig, s.next, "");
    TakeSame(c, s.calls, s.argv, orig, s.next + 1, opt);
    var k := TakeLong(c, s.calls, orig, s.next + 1, opt);
    if k.Take? {
      PermuteTake(c, orig, start, s, opts, nons, s.next + 1, k, 0);
      PermuteFrom(c, orig, start, Step(c, s).0, opts + orig[s.next..k.next], nons);
    } else {
      PermuteFault(c, orig, start, s, opts, nons, k.why);
    }
  }

  /**
  In PERMUTE mode every run ends with argv stably partitioned into options, "--" if there was one, and
  non-options, and has made the option calls in order before the calls for the non-options in order.
  */
  lemma PermuteRun(c: Config, argv: seq<string>, start: nat)
    requires c.ordering == Permute && start <= |argv|
    ensures Permuted(c, argv, start, Run(c, Start(argv, start)).0, Run(c, Start(argv, start)).1)
  {
    PermuteStart(c, argv, start);
    PermuteFrom(c, argv, start, Start(argv, start), [], []);
  }

  // ---------------------------------------------------------------- a reading is a stable partition

  /** `s` is `a` and `b` shuffled together, each in its own order. */
  ghost predicate Shuffles(s: seq<string>, a: seq<string>, b: seq<string>) {
    if s == [] then a == [] && b == []
    else
      || (a != [] && a[0] == s[0] && Shuffles(s[1..], a[1..], b))
      || (b != [] && b[0] == s[0] && Shuffles(s[1..], a, b[1..]))
  }

  lemma {:induction false} ShuffleFirst(x: seq<string>, s: seq<string>, a: seq<string>, b: seq<string>)
    requires Shuffles(s, a, b)
    ensures Shuffles(x + s, x + a, b) && Shuffles(x + s, a, x + b)
  {
    if x == [] {
      assert x + s == s && x + a == a && x + b == b;
    } else {
      ShuffleFirst(x[1..], s, a, b);
      assert (x + s)[1..] == x[1..] + s && (x + a)[1..] == x[1..] + a && (x + b)[1..] == x[1..] + b;
    }
  }

  /** The reading leaves out nothing, adds nothing, and keeps both orders. */
  lemma {:induction false} ReadStable(c: Config, calls: seq<Event>, argv: seq<string>, i: nat, s: string)
    requires i <= |argv| && Read(c, calls, argv, i, s).fault == None
    ensures var r := Read(c, calls, argv, i, s); Shuffles(argv[i..], r.opts + QuoteWord(r), r.nons)
    decreases |argv| - i, |s|
  {
    hide FindShort, FindLong, Value, Shuffles, Advance;
    var r := Read(c, calls, argv, i, s);
    if s != "" {
      StableOption(c, calls, argv, i, i, TakeShort(c, calls, argv, i, s), |s|, s);
    } else if i == |argv| {
      assert argv[i..] == [] && r.opts + QuoteWord(r) == [];
      ShuffleNil();
    } else {
      match Classify(c.longOnly, c.shortOpts, argv[i])
      case Plain =>
        ReadStable(c, calls, argv, i + 1, "");
        StablePlain(argv, i, Read(c, calls, argv, i + 1, ""));
      case Quote =>
        assert r.opts + QuoteWord(r) == ["--"];
        assert argv[i] == "--";
        StableQuote(argv, i);
      case Long(opt) => StableOption(c, calls, argv, i, i + 1, TakeLong(c, calls, argv, i + 1, opt), 0, s);
      case LongOnly(opt) => StableOption(c, calls, argv, i, i + 1, TakeLong(c, calls, argv, i + 1, opt), 0, s);
      case Short(opt) =>
        ReadStable(c, calls, argv, i + 1, opt);
        StableTake(argv, i, i + 1, Read(c, calls, argv, i + 1, opt));
        assert argv[i..i + 1] == [argv[i]];
    }
  }

  lemma {:induction false} StableOption(
    c: Config, calls: seq<Event>, argv: seq<string>, from: nat, i: nat, k: Take, room: nat, s: string)
    requires from <= i <= |argv| && room <= |s|
    requires k.Take? ==> i <= k.next <= |argv| && (k.next > from || |k.rest| < room)
    requires ReadTake(c, calls, argv, from, i, k, room).fault == None
    ensures var r := ReadTake(c, calls, argv, from, i, k, room); Shuffles(argv[from..], r.opts + QuoteWord(r), r.nons)
    decreases |argv| - from, |s|, 0
  {
    hide Read, Shuffles;
    ReadStable(c, calls + [k.call], argv, k.next, k.rest);
    StableTake(argv, from, k.next, Read(c, calls + [k.call], argv, k.next, k.rest));
  }

  lemma StablePlain(argv: seq<string>, i: nat, q: Reading)
    requires i < |argv| && Shuffles(argv[i + 1..], q.opts + QuoteWord(q), q.nons)
    ensures Shuffles(argv[i..], [] + q.opts + QuoteWord(q), [argv[i]] + q.nons)
  {
    hide Shuffles;
    ShuffleFirst([argv[i]], argv[i + 1..], q.opts + QuoteWord(q), q.nons);
    assert argv[i..] == [argv[i]] + argv[i + 1..] && [] + q.opts == q.opts;
  }

  lemma ShuffleNil()
    ensures Shuffles([], [], [])
  {
  }

  lemma StableQuote(argv: seq<string>, i: nat)
    requires i < |argv| && argv[i] == "--"
    ensures Shuffles(argv[i..], ["--"], argv[i + 1..])
  {
    hide Shuffles;
    ShuffleNil();
    var rest := argv[i + 1..];
    ShuffleFirst(rest, [], [], []);
    assert rest + [] == rest;
    ShuffleFirst(["--"], rest, [], rest);
    assert argv[i..] == ["--"] + rest;
    assert ["--"] + [] == ["--"];
  }

  lemma StableTake(argv: seq<string>, i: nat, j: nat, q: Reading)
    requires i <= j <= |argv| && Shuffles(argv[j..], q.opts + QuoteWord(q), q.nons)
    ensures Shuffles(argv[i..], argv[i..j] + q.opts + QuoteWord(q), [] + q.nons)
  {
    hide Shuffles;
    ShuffleFirst(argv[i..j], argv[j..], q.opts + QuoteWord(q), q.nons);
    assert argv[i..] == argv[i..j] + argv[j..] && [] + q.nons == q.nons;
    assert argv[i..j] + (q.opts + QuoteWord(q)) == argv[i..j] + q.opts + QuoteWord(q);
  }

  // ---------------------------------------------------------------- IN_ORDER and REQUIRE_ORDER

  /** The calls of a run that never moves an element, the elements it leaves, and the fault that ends it, if any. */
  datatype Sequence = Sequence(calls: seq<Event>, left: seq<string>, fault: Option<Stop>)

  function Then(calls: seq<Event>, q: Sequence): Sequence {
    Sequence(calls + q.calls, q.left, q.fault)
  }

  function TailOnly(t: Tail): Sequence {
    Sequence(t.calls, t.left, None)
  }

  /**
  In order, a non-option is passed on where it stands. With required order, the first non-option makes
  everything from it on an argument (guideline 9 of section 12.2 of the POSIX.1-2008 Base Definitions).
  */
  function Straight(c: Config, calls: seq<Event>, argv: seq<string>, i: nat, s: string): Sequence
    requires i <= |argv|
    decreases |argv| - i, |s|
  {
    if s != "" then StraightTake(c, calls, argv, i, TakeShort(c, calls, argv, i, s), i, |s|)
    else if i == |argv| then Sequence([], [], None)
    else
      match Classify(c.longOnly, c.shortOpts, argv[i])
      case Plain =>
        if c.ordering.InOrder? then StraightArg(c, calls, argv, i) else TailOnly(ArgTail(c, calls, argv[i..]))
      case Quote => TailOnly(ArgTail(c, calls, argv[i + 1..]))
      case Long(opt) => StraightTake(c, calls, argv, i + 1, TakeLong(c, calls, argv, i + 1, opt), i, 0)
      case LongOnly(opt) => StraightTake(c, calls, argv, i + 1, TakeLong(c, calls, argv, i + 1, opt), i, 0)
      case Short(opt) => Straight(c, calls, argv, i + 1, opt)
  }

  function StraightArg(c: Config, calls: seq<Event>, argv: seq<string>, i: nat): Sequence
    requires i < |argv|
    decreases |argv| - i, 0, 0
  {
    match Offer(c, calls, argv[i..])
    case Each(g) =>
      var call := ArgCall(g, argv[i]);
      Then([call], Straight(c, calls + [call], argv, Advance(c, calls, argv, i + 1, call), ""))
    case Whole(g) => Sequence([ArgsCall(g)], [], None)
    case Refused => Sequence([], argv[i..], None)
  }

  function StraightTake(c: Config, calls: seq<Event>, argv: seq<string>, i: nat, k: Take, ghost from: nat,
      ghost room: nat)
    : Sequence
    requires from <= i <= |argv|
    requires k.Take? ==> i <= k.next <= |argv| && (k.next > from || |k.rest| < room)
    decreases |argv| - from, room, 0
  {
    match k
    case Fault(why) => Sequence([], [], Some(why))
    case Take(call, next, rest) => Then([call], Straight(c, calls + [call], argv, next, rest))
  }

  /** The result of a run that moves nothing. */
  ghost predicate Straightened(c: Config, s: State, q: Sequence, f: State, st: Status) {
    && f.argv == s.argv && f.calls == s.calls + q.calls
    && st == (match q.fault { case None => Exhausted case Some(why) => Stopped(why) })
    && (q.fault.None? ==> f.next <= |f.argv| && f.argv[f.next..] == q.left)
  }

  lemma StraightThen(c: Config, s: State, u: State, calls: seq<Event>, q: Sequence, f: State, st: Status)
    requires u.argv == s.argv && u.calls == s.calls + calls && Straightened(c, u, q, f, st)
    ensures Straightened(c, s, Then(calls, q), f, st)
  {
    assert (s.calls + calls) + q.calls == s.calls + (calls + q.calls);
  }

  lemma {:induction false} StraightFrom(c: Config, s: State)
    requires Proper(s) && !c.ordering.Permute? && !s.argsOnly && s.first == s.last
    ensures Straightened(c, s, Straight(c, s.calls, s.argv, s.next, s.nextchar), Run(c, s).0, Run(c, s).1)
    decreases |s.argv| - s.next, |s.nextchar|
  {
    hide Rotated, FindShort, FindLong, Value, OfferFrom, Straightened, TakeShort, TakeLong, ArgTail;
    StepProper(c, s);
    var (f, st) := Run(c, s);
    if s.nextchar != "" {
      StraightOption(c, s, s.next, TakeShort(c, s.calls, s.argv, s.next, s.nextchar), |s.nextchar|);
    } else if s.next == |s.argv| {
      StraightStop(c, s);
      assert s.argv[s.next..] == [];
    } else {
      match Classify(c.longOnly, c.shortOpts, s.argv[s.next])
      case Plain => StraightPlain(c, s);
      case Quote =>
        ArgsRun(c, Step(c, s).0);
        StraightArgs(c, s);
      case Long(opt) => StraightOption(c, s, s.next + 1, TakeLong(c, s.calls, s.argv, s.next + 1, opt), 0);
      case LongOnly(opt) => StraightOption(c, s, s.next + 1, TakeLong(c, s.calls, s.argv, s.next + 1, opt), 0);
      case Short(opt) =>
        StraightFrom(c, Step(c, s).0);
        StraightSkip(c, s, Step(c, s).0, Straight(c, s.calls, s.argv, s.next + 1, opt), f, st);
    }
  }

  lemma StraightSkip(c: Config, s: State, u: State, q: Sequence, f: State, st: Status)
    requires u.argv == s.argv && u.calls == s.calls && Straightened(c, u, q, f, st)
    ensures Straightened(c, s, q, f, st)
  {
  }

  lemma StraightStop(c: Config, s: State)
    requires Proper(s) && Step(c, s) == (s, Exhausted)
    ensures Straightened(c, s, Sequence([], s.argv[s.next..], None), Run(c, s).0, Run(c, s).1)
  {
    hide Step;
    assert s.calls + [] == s.calls;
  }

  lemma StraightArgs(c: Config, s: State)
    requires Proper(s) && Step(c, s).1 == Continue && Step(c, s).0.argv == s.argv && Step(c, s).0.calls == s.calls
    requires Proper(Step(c, s).0) && Step(c, s).0.argsOnly
    ensures Straightened(c, s, TailOnly(ArgTail(c, s.calls, s.argv[Step(c, s).0.next..])), Run(c, s).0, Run(c, s).1)
  {
    hide Step, OfferFrom;
    ArgsRun(c, Step(c, s).0);
  }

  lemma {:induction false} StraightOption(c: Config, s: State, i: nat, k: Take, room: nat)
    requires Proper(s) && !c.ordering.Permute? && !s.argsOnly && s.first == s.last && s.next <= i <= |s.argv|
    requires k.Take? ==> i <= k.next <= |s.argv| && (k.next > s.next || |k.rest| < room)
    requires room <= |s.nextchar| && Step(c, s) == Applied(s.(next := i), k)
    ensures Straightened(c, s, StraightTake(c, s.calls, s.argv, i, k, s.next, room), Run(c, s).0, Run(c, s).1)
    decreases |s.argv| - s.next, |s.nextchar|, 0
  {
    hide Straight, Classify, TakeShort, TakeLong, Straightened, Rotated;
    StepProper(c, s);
    var (f, st) := Run(c, s);
    if k.Take? {
      var u := Step(c, s).0;
      StraightFrom(c, u);
      StraightThen(c, s, u, [k.call], Straight(c, s.calls + [k.call], s.argv, k.next, k.rest), f, st);
    } else {
      StraightFault(c, s, k.why);
    }
  }

  lemma StraightFault(c: Config, s: State, why: Stop)
    requires Proper(s) && Step(c, s).1 == Stopped(why) && Step(c, s).0.calls == s.calls && Step(c, s).0.argv == s.argv
    ensures Straightened(c, s, Sequence([], [], Some(why)), Run(c, s).0, Run(c, s).1)
  {
    hide Step;
    assert s.calls + [] == s.calls;
  }

  lemma {:induction false} StraightPlain(c: Config, s: State)
    requires Proper(s) && !c.ordering.Permute? && !s.argsOnly && s.first == s.last && s.next < |s.argv|
    requires s.nextchar == ""
    requires Classify(c.longOnly, c.shortOpts, s.argv[s.next]) == Plain
    ensures Straightened(c, s, Straight(c, s.calls, s.argv, s.next, ""), Run(c, s).0, Run(c, s).1)
    decreases |s.argv| - s.next, |s.nextchar|, 0
  {
    hide Rotated, FindShort, FindLong, Value, OfferFrom, Classify, Straightened;
    StepProper(c, s);
    var (f, st) := Run(c, s);
    var u := Step(c, s).0;
    if c.ordering.RequireOrder? {
      StraightArgs(c, s);
    } else {
      match Offer(c, s.calls, s.argv[s.next..])
      case Each(g) =>
        StraightFrom(c, u);
        StraightThen(c, s, u, [ArgCall(g, s.argv[s.next])], Straight(c, u.calls, s.argv, u.next, ""), f, st);
      case Whole(g) =>
        StraightFrom(c, u);
        StraightThen(c, s, u, [ArgsCall(g)], Sequence([], [], None), f, st);
        assert Then([ArgsCall(g)], Sequence([], [], None)) == Sequence([ArgsCall(g)], [], None);
      case Refused =>
        StraightStop(c, s);
    }
  }

  /** IN_ORDER and REQUIRE_ORDER runs leave argv alone and make the calls of `Straight`. */
  lemma StraightRun(c: Config, argv: seq<string>, start: nat)
    requires !c.ordering.Permute? && start <= |argv|
    ensures var (f, st) := Run(c, Start(argv, start)); var q := Straight(c, [], argv, start, "");
      && f.argv == argv && f.calls == q.calls
      && st == (match q.fault { case None => Exhausted case Some(why) => Stopped(why) })
      && (q.fault.None? ==> f.next <= |f.argv| && f.argv[f.next..] == q.left)
  {
    StraightFrom(c, Start(argv, start));
    assert [] + Straight(c, [], argv, start, "").calls == Straight(c, [], argv, start, "").calls;
  }

  // ---------------------------------------------------------------- PERMUTE against IN_ORDER

  function OptCalls(calls: seq<Event>): seq<Event> {
    if calls == [] then [] else (if calls[0].OptCall? then [calls[0]] else []) + OptCalls(calls[1..])
  }

  function ArgCalls(calls: seq<Event>): seq<Event> {
    if calls == [] then [] else (if calls[0].OptCall? then [] else [calls[0]]) + ArgCalls(calls[1..])
  }

  lemma {:induction false} OptCallsAppend(a: seq<Event>, b: seq<Event>)
    ensures OptCalls(a + b) == OptCalls(a) + OptCalls(b)
  {
    if a == [] {
      assert a + b == b;
    } else {
      OptCallsAppend(a[1..], b);
      assert (a + b)[1..] == a[1..] + b && (a + b)[0] == a[0];
      assert OptCalls(a + b) == (if a[0].OptCall? then [a[0]] else []) + (OptCalls(a[1..]) + OptCalls(b));
    }
  }

  lemma {:induction false} ArgCallsAppend(a: seq<Event>, b: seq<Event>)
    ensures ArgCalls(a + b) == ArgCalls(a) + ArgCalls(b)
  {
    if a == [] {
      assert a + b == b;
    } else {
      ArgCallsAppend(a[1..], b);
      assert (a + b)[1..] == a[1..] + b && (a + b)[0] == a[0];
      assert ArgCalls(a + b) == (if a[0].OptCall? then [] else [a[0]]) + (ArgCalls(a[1..]) + ArgCalls(b));
    }
  }

  /**
  The callbacks of one kind do not care about those of the other: those for options about earlier options,
  those for arguments, which leave `next` alone, only about earlier arguments and their own.
  */
  ghost predicate Separate(c: Config) {
    && (forall g, h, e: Event, w :: e.OptCall? && OptCalls(g) == OptCalls(h) ==> c.moves(g, e, w) == c.moves(h, e, w))
    && (forall h, e: Event, w :: e.ArgCall? ==> c.moves(h, e, w) == 0)
    && (forall g, h, e, v, w :: ArgCalls(g) == ArgCalls(h) ==> c.takes(g, e, v) == c.takes(h, e, w))
  }

  lemma TakeSeparate(c: Config, g: seq<Event>, h: seq<Event>, argv: seq<string>, i: nat, s: string)
    requires Separate(c) && OptCalls(g) == OptCalls(h) && i <= |argv|
    ensures s != "" ==> TakeShort(c, g, argv, i, s) == TakeShort(c, h, argv, i, s)
    ensures TakeLong(c, g, argv, i, s) == TakeLong(c, h, argv, i, s)
  {
    hide FindShort, FindLong, Value, OptCalls;
  }

  lemma {:induction false} OfferSeparate(c: Config, g: seq<Event>, h: seq<Event>, v: seq<string>, w: seq<string>,
      k: nat)
    requires Separate(c) && ArgCalls(g) == ArgCalls(h) && v != [] && w != [] && v[0] == w[0] && k <= c.groups
    ensures OfferFrom(c, g, v, k) == OfferFrom(c, h, w, k)
    decreases c.groups - k
  {
    if k < c.groups {
      OfferSeparate(c, g, h, v, w, k + 1);
    }
  }

  /** One more call on either side keeps the arguments of two histories equal. */
  lemma ArgCallsGrow(g: seq<Event>, h: seq<Event>, e: Event)
    requires ArgCalls(g) == ArgCalls(h)
    ensures ArgCalls(g + [e]) == ArgCalls(h + [e])
    ensures e.OptCall? ==> ArgCalls(g + [e]) == ArgCalls(h)
  {
    ArgCallsAppend(g, [e]);
    ArgCallsAppend(h, [e]);
    assert [e][1..] == [];
  }

  lemma OptCallsGrow(g: seq<Event>, h: seq<Event>, e: Event)
    requires OptCalls(g) == OptCalls(h)
    ensures e.OptCall? ==> OptCalls(g + [e]) == OptCalls(h + [e])
    ensures !e.OptCall? ==> OptCalls(g + [e]) == OptCalls(h)
  {
    OptCallsAppend(g, [e]);
    OptCallsAppend(h, [e]);
    assert [e][1..] == [];
  }

  lemma {:induction false} TailSeparate(c: Config, g: seq<Event>, h: seq<Event>, words: seq<string>)
    requires Separate(c) && ArgCalls(g) == ArgCalls(h)
    ensures ArgTail(c, g, words) == ArgTail(c, h, words)
    ensures var t := ArgTail(c, g, words).calls; OptCalls(t) == [] && ArgCalls(t) == t
    decreases |words|
  {
    if words != [] {
      hide OfferFrom, Separate;
      OfferSeparate(c, g, h, words, words, 0);
      match Offer(c, g, words)
      case Each(n) =>
        var call := ArgCall(n, words[0]);
        StillArg(c, g, words, call);
        StillArg(c, h, words, call);
        ArgCallsGrow(g, h, call);
        TailSeparate(c, g + [call], h + [call], words[1..]);
        var t := ArgTail(c, g + [call], words[1..]).calls;
        assert ([call] + t)[1..] == t;
      case Whole(n) =>
        assert [ArgsCall(n)][1..] == [];
      case Refused =>
    }
  }

  lemma StillArg(c: Config, calls: seq<Event>, words: seq<string>, call: Event)
    requires Separate(c) && words != [] && call.ArgCall?
    ensures Advance(c, calls, words, 1, call) == 1
  {
  }

  /** No element from `i` on, up to a "--", looks like an option. */
  predicate NoOption(c: Config, argv: seq<string>, i: nat)
    requires i <= |argv|
    decreases |argv| - i
  {
    || i == |argv|
    || (match Classify(c.longOnly, c.shortOpts, argv[i])
        case Plain => NoOption(c, argv, i + 1)
        case Quote => true
        case _ => false)
  }

  /** No option stands behind the first argument that nobody takes by itself. */
  predicate Quiet(c: Config, calls: seq<Event>, argv: seq<string>, i: nat, s: string)
    requires i <= |argv|
    decreases |argv| - i, |s|
  {
    if s != "" then QuietTake(c, calls, argv, i, TakeShort(c, calls, argv, i, s), i, |s|)
    else if i == |argv| then true
    else
      match Classify(c.longOnly, c.shortOpts, argv[i])
      case Plain =>
        var r := Offer(c, calls, argv[i..]);
        if r.Each? then Quiet(c, calls + [ArgCall(r.group, argv[i])], argv, i + 1, "") else NoOption(c, argv, i + 1)
      case Quote => true
      case Long(opt) => QuietTake(c, calls, argv, i + 1, TakeLong(c, calls, argv, i + 1, opt), i, 0)
      case LongOnly(opt) => QuietTake(c, calls, argv, i + 1, TakeLong(c, calls, argv, i + 1, opt), i, 0)
      case Short(opt) => Quiet(c, calls, argv, i + 1, opt)
  }

  predicate QuietTake(c: Config, calls: seq<Event>, argv: seq<string>, i: nat, k: Take, ghost from: nat,
      ghost room: nat)
    requires from <= i <= |argv|
    requires k.Take? ==> i <= k.next <= |argv| && (k.next > from || |k.rest| < room)
    decreases |argv| - from, room, 0
  {
    k.Take? ==> Quiet(c, calls + [k.call], argv, k.next, k.rest)
  }

  lemma {:induction false} NoOptionReads(c: Config, calls: seq<Event>, argv: seq<string>, i: nat)
    requires i <= |argv|
    ensures var r := Read(c, calls, argv, i, ""); NoOption(c, argv, i) <==> r.calls == [] && r.fault.None?
    decreases |argv| - i
  {
    hide FindShort, FindLong, Value;
    if i < |argv| {
      match Classify(c.longOnly, c.shortOpts, argv[i])
      case Plain => NoOptionReads(c, calls, argv, i + 1);
      case Quote =>
      case Long(opt) =>
      case LongOnly(opt) =>
      case Short(opt) =>
        var k := TakeShort(c, calls, argv, i + 1, opt);
        assert Read(c, calls, argv, i + 1, opt) == ReadTake(c, calls, argv, i + 1, i + 1, k, |opt|);
    }
  }

  /** How an in-order run from `q` relates to the reading `r`, whose arguments come after the calls `k`. */
  ghost predicate Splits(c: Config, k: seq<Event>, quiet: bool, q: Sequence, r: Reading) {
    && OptCalls(r.calls) == r.calls && ArgCalls(r.calls) == []
    && (quiet ==> q.fault == r.fault && OptCalls(q.calls) == r.calls)
    && (!quiet ==> q.fault.None? && (r.fault.Some? || OptCalls(q.calls) != r.calls))
    && (r.fault.None? ==> ArgCalls(q.calls) == ArgTail(c, k, r.nons).calls)
  }

  lemma SplitsOption(c: Config, k: seq<Event>, quiet: bool, q: Sequence, r: Reading, e: Event, taken: seq<string>)
    requires Splits(c, k, quiet, q, r) && e.OptCall?
    ensures Splits(c, k, quiet, Then([e], q), Before([e], taken, [], r))
  {
    assert ([e] + q.calls)[1..] == q.calls && ([e] + r.calls)[1..] == r.calls;
    assert [] + r.nons == r.nons;
  }

  lemma SplitsSkip(c: Config, k: seq<Event>, quiet: bool, q: Sequence, r: Reading, taken: seq<string>)
    requires Splits(c, k, quiet, q, r)
    ensures Splits(c, k, quiet, q, Before([], taken, [], r))
  {
    assert [] + r.calls == r.calls && [] + r.nons == r.nons;
  }

  lemma SplitsArg(c: Config, k: seq<Event>, quiet: bool, q: Sequence, r: Reading, g: nat, word: string)
    requires Separate(c) && Splits(c, k + [ArgCall(g, word)], quiet, q, r)
    requires Offer(c, k, [word] + r.nons) == Each(g)
    ensures Splits(c, k, quiet, Then([ArgCall(g, word)], q), Before([], [], [word], r))
  {
    hide OfferFrom, Separate;
    var e := ArgCall(g, word);
    StillArg(c, k, [word] + r.nons, e);
    assert ([word] + r.nons)[1..] == r.nons && ([word] + r.nons)[0] == word;
    assert ([e] + q.calls)[1..] == q.calls && [] + r.calls == r.calls;
  }

  lemma OneArgCall(calls: seq<Event>)
    requires |calls| <= 1 && (calls != [] ==> !calls[0].OptCall?)
    ensures OptCalls(calls) == [] && ArgCalls(calls) == calls
  {
    assert calls != [] ==> calls[1..] == [];
  }

  /** An argument that ends the in-order run, because everything or nothing of it is taken. */
  lemma SplitsLast(c: Config, k: seq<Event>, argv: seq<string>, i: nat, h: seq<Event>, q: Sequence, r: Reading)
    requires i < |argv| && r == Read(c, h, argv, i + 1, "") && OptCalls(r.calls) == r.calls && ArgCalls(r.calls) == []
    requires match Offer(c, k, [argv[i]] + r.nons) {
        case Each(_) => false
        case Whole(g) => q.calls == [ArgsCall(g)]
        case Refused => q.calls == []
      }
    requires q.fault.None?
    ensures Splits(c, k, NoOption(c, argv, i + 1), q, Before([], [], [argv[i]], r))
  {
    hide OfferFrom, Read;
    NoOptionReads(c, h, argv, i + 1);
    assert [] + r.calls == r.calls;
    OneArgCall(q.calls);
    var words := [argv[i]] + r.nons;
    assert ArgTail(c, k, words).calls == q.calls;
  }

  /** A reading makes only calls for options. */
  lemma {:induction false} ReadCalls(c: Config, calls: seq<Event>, argv: seq<string>, i: nat, s: string)
    requires i <= |argv|
    ensures var r := Read(c, calls, argv, i, s); OptCalls(r.calls) == r.calls && ArgCalls(r.calls) == []
    decreases |argv| - i, |s|
  {
    hide FindShort, FindLong, Value, Advance;
    if s != "" {
      ReadCallsTake(c, calls, argv, i, i, TakeShort(c, calls, argv, i, s), |s|, s);
    } else if i < |argv| {
      match Classify(c.longOnly, c.shortOpts, argv[i])
      case Plain => ReadCalls(c, calls, argv, i + 1, "");
        assert [] + Read(c, calls, argv, i + 1, "").calls == Read(c, calls, argv, i + 1, "").calls;
      case Quote =>
      case Long(opt) => ReadCallsTake(c, calls, argv, i, i + 1, TakeLong(c, calls, argv, i + 1, opt), 0, s);
      case LongOnly(opt) => ReadCallsTake(c, calls, argv, i, i + 1, TakeLong(c, calls, argv, i + 1, opt), 0, s);
      case Short(opt) => ReadCalls(c, calls, argv, i + 1, opt);
        assert [] + Read(c, calls, argv, i + 1, opt).calls == Read(c, calls, argv, i + 1, opt).calls;
    }
  }

  lemma {:induction false} ReadCallsTake(
    c: Config, calls: seq<Event>, argv: seq<string>, from: nat, i: nat, k: Take, room: nat, s: string)
    requires from <= i <= |argv| && room <= |s|
    requires k.Take? ==> i <= k.next <= |argv| && (k.next > from || |k.rest| < room) && k.call.OptCall?
    ensures var r := ReadTake(c, calls, argv, from, i, k, room); OptCalls(r.calls) == r.calls && ArgCalls(r.calls) == []
    decreases |argv| - from, |s|, 0
  {
    if k.Take? {
      ReadCalls(c, calls + [k.call], argv, k.next, k.rest);
      var r := Read(c, calls + [k.call], argv, k.next, k.rest);
      assert ([k.call] + r.calls)[1..] == r.calls;
    }
  }

  /** `g` are the calls of the in-order run so far, `h` those of the reading, `k` those before its arguments. */
  lemma {:induction false} OrderedSplits(
    c: Config, g: seq<Event>, h: seq<Event>, k: seq<Event>, argv: seq<string>, i: nat, s: string)
    requires i <= |argv| && c.ordering.InOrder? && Separate(c) && OptCalls(g) == OptCalls(h)
    requires ArgCalls(g) == ArgCalls(k)
    ensures Splits(c, k, Quiet(c, g, argv, i, s), Straight(c, g, argv, i, s), Read(c, h, argv, i, s))
    decreases |argv| - i, |s|
  {
    hide FindShort, FindLong, Value, OfferFrom, Separate, Advance, Splits, OptCalls, ArgCalls;
    if s != "" {
      TakeSeparate(c, g, h, argv, i, s);
      SplitTake(c, g, h, k, argv, i, i, TakeShort(c, g, argv, i, s), |s|, s);
    } else if i == |argv| {
      SplitsEmpty(c, k);
    } else {
      match Classify(c.longOnly, c.shortOpts, argv[i])
      case Plain => SplitPlain(c, g, h, k, argv, i);
      case Quote => SplitQuote(c, g, k, argv, i);
      case Long(opt) =>
        TakeSeparate(c, g, h, argv, i + 1, opt);
        SplitTake(c, g, h, k, argv, i, i + 1, TakeLong(c, g, argv, i + 1, opt), 0, s);
      case LongOnly(opt) =>
        TakeSeparate(c, g, h, argv, i + 1, opt);
        SplitTake(c, g, h, k, argv, i, i + 1, TakeLong(c, g, argv, i + 1, opt), 0, s);
      case Short(opt) =>
        OrderedSplits(c, g, h, k, argv, i + 1, opt);
        SplitsSkip(c, k, Quiet(c, g, argv, i + 1, opt), Straight(c, g, argv, i + 1, opt), Read(c, h, argv, i + 1, opt),
          [argv[i]]);
    }
  }

  lemma SplitsEmpty(c: Config, k: seq<Event>)
    ensures Splits(c, k, true, Sequence([], [], None), Reading([], [], [], false, None))
  {
  }

  lemma SplitQuote(c: Config, g: seq<Event>, k: seq<Event>, argv: seq<string>, i: nat)
    requires i < |argv| && Separate(c) && ArgCalls(g) == ArgCalls(k)
    ensures Splits(c, k, true, TailOnly(ArgTail(c, g, argv[i + 1..])), Reading([], [], argv[i + 1..], true, None))
  {
    hide Separate;
    TailSeparate(c, g, k, argv[i + 1..]);
  }

  lemma {:induction false} SplitPlain(c: Config, g: seq<Event>, h: seq<Event>, k: seq<Event>, argv: seq<string>, i: nat)
    requires i < |argv| && c.ordering.InOrder? && Separate(c) && OptCalls(g) == OptCalls(h)
    requires ArgCalls(g) == ArgCalls(k)
    requires Classify(c.longOnly, c.shortOpts, argv[i]) == Plain
    ensures Splits(c, k, Quiet(c, g, argv, i, ""), Straight(c, g, argv, i, ""), Read(c, h, argv, i, ""))
    decreases |argv| - i, 0, 0
  {
    hide FindShort, FindLong, Value, OfferFrom, Separate, Splits, OptCalls, ArgCalls, Classify, TakeShort, TakeLong;
    var r := Read(c, h, argv, i + 1, "");
    OfferSeparate(c, g, k, argv[i..], [argv[i]] + r.nons, 0);
    match Offer(c, g, argv[i..])
    case Each(n) =>
      var e := ArgCall(n, argv[i]);
      OptCallsGrow(g, h, e);
      ArgCallsGrow(g, k, e);
      OrderedSplits(c, g + [e], h, k + [e], argv, i + 1, "");
      assert Advance(c, g, argv, i + 1, e) == i + 1 by {
        assert argv[i..][1..] == argv[i + 1..];
        AdvanceSame(c, g, argv, i + 1, argv[i..], 1, e);
        StillArg(c, g, argv[i..], e);
      }
      SplitsArg(c, k, Quiet(c, g + [e], argv, i + 1, ""), Straight(c, g + [e], argv, i + 1, ""), r, n, argv[i]);
    case Whole(n) =>
      ReadCalls(c, h, argv, i + 1, "");
      SplitsLast(c, k, argv, i, h, Sequence([ArgsCall(n)], [], None), r);
    case Refused =>
      ReadCalls(c, h, argv, i + 1, "");
      SplitsLast(c, k, argv, i, h, Sequence([], argv[i..], None), r);
  }

  lemma {:induction false} SplitTake(
    c: Config, g: seq<Event>, h: seq<Event>, m: seq<Event>, argv: seq<string>, from: nat, i: nat, k: Take, room: nat,
    s: string)
    requires from <= i <= |argv| && room <= |s|
    requires c.ordering.InOrder? && Separate(c) && OptCalls(g) == OptCalls(h) && ArgCalls(g) == ArgCalls(m)
    requires k.Take? ==> i <= k.next <= |argv| && (k.next > from || |k.rest| < room) && k.call.OptCall?
    ensures Splits(c, m, QuietTake(c, g, argv, i, k, from, room),
                   StraightTake(c, g, argv, i, k, from, room), ReadTake(c, h, argv, from, i, k, room))
    decreases |argv| - from, |s|, 0
  {
    hide OfferFrom, Read, Straight, Separate, Quiet;
    if k.Take? {
      OptCallsGrow(g, h, k.call);
      ArgCallsGrow(g, m, k.call);
      var g', h' := g + [k.call], h + [k.call];
      OrderedSplits(c, g', h', m, argv, k.next, k.rest);
      SplitsOption(c, m, Quiet(c, g', argv, k.next, k.rest), Straight(c, g', argv, k.next, k.rest),
                   Read(c, h', argv, k.next, k.rest), k.call, argv[from..k.next]);
    }
  }

  /** Two runs end alike, with the same calls for options and, without a fault, for arguments. */
  ghost predicate Agree(p: (State, Status), o: (State, Status)) {
    && p.1 == o.1 && OptCalls(p.0.calls) == OptCalls(o.0.calls)
    && (p.1 == Exhausted ==> ArgCalls(p.0.calls) == ArgCalls(o.0.calls))
  }

  /** PERMUTE and IN_ORDER agree exactly if no option stands behind the first argument nobody takes by itself. */
  lemma PermuteAgreesInOrder(c: Config, argv: seq<string>, start: nat)
    requires start <= |argv| && c.ordering.InOrder? && Separate(c)
    ensures var p, o := Run(c.(ordering := Permute), Start(argv, start)), Run(c, Start(argv, start));
      && (Agree(p, o) <==> Quiet(c, [], argv, start, ""))
      && (p.1 == Exhausted ==> ArgCalls(p.0.calls) == ArgCalls(o.0.calls))
  {
    hide Run, OfferFrom, Straight, Read, Separate, Quiet, OptCalls, ArgCalls;
    var cp := c.(ordering := Permute);
    PermuteRun(cp, argv, start);
    StraightRun(c, argv, start);
    ReadOrdering(cp, c, [], argv, start, "");
    ReadCalls(c, [], argv, start, "");
    var r := Read(c, [], argv, start, "");
    OrderedSplits(c, [], [], r.calls, argv, start, "") by { NoArgCalls(); }
    if r.fault.None? {
      TailOrdering(cp, c, r.calls, r.nons);
      var t := ArgTail(c, r.calls, r.nons).calls;
      TailSeparate(c, r.calls, r.calls, r.nons);
      OptCallsAppend(r.calls, t);
      ArgCallsAppend(r.calls, t);
      assert r.calls + [] == r.calls && [] + t == t;
    }
  }

  lemma NoArgCalls()
    ensures ArgCalls([]) == []
  {
  }

  /** Where nobody takes arguments, an option behind one is read in PERMUTE order only. */
  lemma RefusedDisagree()
    ensures var c := Config([Entry(0, Opt(None, 'x' as int, false, false, false, false, false))], false, [], InOrder, 0,
                            (h, e, w) => false, (h, e, w) => 0);
      var argv := ["a", "-x"];
      Separate(c) && !Agree(Run(c.(ordering := Permute), Start(argv, 0)), Run(c, Start(argv, 0)))
  {
    var c := Config([Entry(0, Opt(None, 'x' as int, false, false, false, false, false))], false, [], InOrder, 0,
                    (h, e, w) => false, (h, e, w) => 0);
    assert !NoOption(c, ["a", "-x"], 1);
    assert !Quiet(c, [], ["a", "-x"], 0, "");
    PermuteAgreesInOrder(c, ["a", "-x"], 0) by { hide OptCalls, ArgCalls; }
  }

  /** If every argument is taken by itself, the runs agree on every argv. */
  lemma {:induction false} EachQuiet(c: Config, calls: seq<Event>, argv: seq<string>, i: nat, s: string)
    requires i <= |argv|
    requires forall h, w :: w != [] ==> Offer(c, h, w).Each?
    ensures Quiet(c, calls, argv, i, s)
    decreases |argv| - i, |s|
  {
    hide FindShort, FindLong, Value, OfferFrom, Advance;
    if s != "" {
      var k := TakeShort(c, calls, argv, i, s);
      if k.Take? { EachQuiet(c, calls + [k.call], argv, k.next, k.rest); }
    } else if i < |argv| {
      match Classify(c.longOnly, c.shortOpts, argv[i])
      case Plain =>
        EachQuiet(c, calls + [ArgCall(Offer(c, calls, argv[i..]).group, argv[i])], argv, i + 1, "");
      case Quote =>
      case Long(opt) =>
        var k := TakeLong(c, calls, argv, i + 1, opt);
        if k.Take? { EachQuiet(c, calls + [k.call], argv, k.next, k.rest); }
      case LongOnly(opt) =>
        var k := TakeLong(c, calls, argv, i + 1, opt);
        if k.Take? { EachQuiet(c, calls + [k.call], argv, k.next, k.rest); }
      case Short(opt) => EachQuiet(c, calls, argv, i + 1, opt);
    }
  }

  // ---------------------------------------------------------------- what does not depend on the ordering

  lemma {:induction false} OfferOrdering(a: Config, b: Config, calls: seq<Event>, words: seq<string>, g: nat)
    requires a == b.(ordering := a.ordering) && words != [] && g <= a.groups
    ensures OfferFrom(a, calls, words, g) == OfferFrom(b, calls, words, g)
    decreases a.groups - g
  {
    if g < a.groups {
      OfferOrdering(a, b, calls, words, g + 1);
    }
  }

  lemma {:induction false} TailOrdering(a: Config, b: Config, calls: seq<Event>, words: seq<string>)
    requires a == b.(ordering := a.ordering)
    ensures ArgTail(a, calls, words) == ArgTail(b, calls, words)
    decreases |words|
  {
    if words != [] {
      hide OfferFrom;
      OfferOrdering(a, b, calls, words, 0);
      var r := Offer(a, calls, words);
      if r.Each? {
        var call := ArgCall(r.group, words[0]);
        TailOrdering(a, b, calls + [call], words[Advance(a, calls, words, 1, call)..]);
      }
    }
  }

  lemma TakeOrdering(a: Config, b: Config, calls: seq<Event>, argv: seq<string>, i: nat, s: string)
    requires a == b.(ordering := a.ordering) && i <= |argv|
    ensures s != "" ==> TakeShort(a, calls, argv, i, s) == TakeShort(b, calls, argv, i, s)
    ensures TakeLong(a, calls, argv, i, s) == TakeLong(b, calls, argv, i, s)
  {
    hide FindShort, FindLong, Value;
  }

  lemma {:induction false} ReadOrdering(a: Config, b: Config, calls: seq<Event>, argv: seq<string>, i: nat, s: string)
    requires i <= |argv| && a == b.(ordering := a.ordering)
    ensures Read(a, calls, argv, i, s) == Read(b, calls, argv, i, s)
    decreases |argv| - i, |s|
  {
    hide FindShort, FindLong, Value, TakeLong, TakeShort;
    TakeOrdering(a, b, calls, argv, i, s);
    if s != "" {
      var k := TakeShort(a, calls, argv, i, s);
      if k.Take? { ReadOrdering(a, b, calls + [k.call], argv, k.next, k.rest); }
    } else if i < |argv| {
      match Classify(a.longOnly, a.shortOpts, argv[i])
      case Plain => ReadOrdering(a, b, calls, argv, i + 1, "");
      case Quote =>
      case Long(opt) => ReadOrderingLong(a, b, calls, argv, i, opt);
      case LongOnly(opt) => ReadOrderingLong(a, b, calls, argv, i, opt);
      case Short(opt) => ReadOrdering(a, b, calls, argv, i + 1, opt);
    }
  }

  lemma {:induction false} ReadOrderingLong(a: Config, b: Config, calls: seq<Event>, argv: seq<string>, i: nat,
      opt: string)
    requires i < |argv| && a == b.(ordering := a.ordering)
    ensures ReadTake(a, calls, argv, i, i + 1, TakeLong(a, calls, argv, i + 1, opt), 0)
         == ReadTake(b, calls, argv, i, i + 1, TakeLong(b, calls, argv, i + 1, opt), 0)
    decreases |argv| - i, 0, 0
  {
    hide TakeLong, Read;
    TakeOrdering(a, b, calls, argv, i + 1, opt);
    var k := TakeLong(a, calls, argv, i + 1, opt);
    if k.Take? { ReadOrdering(a, b, calls + [k.call], argv, k.next, k.rest); }
  }
}
