/**
The argp parser as a state machine over (next, first_nonopt, last_nonopt, nextchar, args_only,
quoted) and argv, and a left-to-right reading of argv that never moves an element. Every run of the
machine does what the reading says.
*/
module ArgpMachine {
  import opened Options
  import opened ArgpOptions
  import opened ArgvExchange

  /** The calls made to the user's parsers. */
  datatype Event =
    | OptCall(group: nat, key: int, value: Option<string>)
    | ArgCall(group: nat, word: string)
    | ArgsCall(group: nat)

  datatype Ordering = RequireOrder | Permute | InOrder

  /** What becomes of a non-option argument: some parser takes it, or it and all that follow, or none does. */
  datatype Taker = Each(group: nat) | Whole(group: nat) | Refused

  /**
  The user's parsers are an oracle. Given the calls made so far, a call, and the elements from `next` on,
  `takes` says whether the parser understands the call (ARGP_KEY_ARG or ARGP_KEY_ARGS; options are always
  understood) and `moves` by how many elements it then moves `next` forward.
  */
  datatype Config = Config(
    table: seq<Entry>, longOnly: bool, shortOpts: seq<int>, ordering: Ordering, groups: nat,
    takes: (seq<Event>, Event, seq<string>) -> bool, moves: (seq<Event>, Event, seq<string>) -> nat)

  datatype Stop = UnknownOption | UnexpectedArgument | MissingArgument | NotAscii

  /** `Exhausted` is EBADKEY for want of a taker or of arguments, `Stopped` a fault in an option. */
  datatype Status = Continue | Exhausted | Stopped(why: Stop)

  datatype State = State(
    argv: seq<string>, next: nat, first: nat, last: nat, nextchar: string, argsOnly: bool, quoted: nat,
    calls: seq<Event>)

  /** Each group is offered the first of `words` by itself, then all of them, before the next group. */
  function OfferFrom(c: Config, calls: seq<Event>, words: seq<string>, g: nat): (r: Taker)
    requires g <= c.groups && words != []
    decreases c.groups - g
  {
    if g == c.groups then Refused
    else if c.takes(calls, ArgCall(g, words[0]), words[1..]) then Each(g)
    else if c.takes(calls, ArgsCall(g), words) then Whole(g)
    else OfferFrom(c, calls, words, g + 1)
  }

  function Offer(c: Config, calls: seq<Event>, words: seq<string>): Taker
    requires words != []
  {
    OfferFrom(c, calls, words, 0)
  }

  /** Where the callback leaves `next`, which is `i` when it is called. */
  function Advance(c: Config, calls: seq<Event>, argv: seq<string>, i: nat, call: Event): (j: nat)
    requires i <= |argv|
    ensures i <= j <= |argv|
  {
    var m := c.moves(calls, call, argv[i..]);
    if i + m < |argv| then i + m else |argv|
  }

  // ---------------------------------------------------------------- taking one option

  datatype Take = Take(call: Event, next: nat, rest: string) | Fault(why: Stop)

  /** The next letter of a cluster `s`; `i` is the index of the element after the cluster. */
  function TakeShort(c: Config, calls: seq<Event>, argv: seq<string>, i: nat, s: string): (r: Take)
    requires i <= |argv| && s != ""
    ensures r.Take? ==> i <= r.next <= |argv| && |r.rest| < |s|
  {
    if s[0] as int >= 128 then Fault(NotAscii)
    else
      match FindShort(c.table, s[0] as int)
      case None => Fault(UnknownOption)
      case Some(e) =>
        var rest := s[1..];
        if !e.opt.hasArg then Call(c, calls, argv, i, e, None, rest)
        else if rest != "" then Call(c, calls, argv, i, e, Some(rest), "")
        else if e.opt.optional then Call(c, calls, argv, i, e, None, "")
        else if i == |argv| then Fault(MissingArgument)
        else Call(c, calls, argv, i + 1, e, Some(argv[i]), "")
  }

  function Call(c: Config, calls: seq<Event>, argv: seq<string>, i: nat, e: Entry, value: Option<string>, rest: string)
    : (r: Take)
    requires i <= |argv|
    ensures r.Take? && i <= r.next <= |argv| && r.rest == rest
  {
    var call := OptCall(e.group, e.opt.key, value);
    Take(call, Advance(c, calls, argv, i, call), rest)
  }

  /** A long option; `i` is the index of the element after it. */
  function TakeLong(c: Config, calls: seq<Event>, argv: seq<string>, i: nat, opt: string): (r: Take)
    requires i <= |argv|
    ensures r.Take? ==> i <= r.next <= |argv| && r.rest == ""
  {
    match FindLong(c.table, opt)
    case None => Fault(UnknownOption)
    case Some(e) =>
      var value := Value(opt);
      if value.Some? && !e.opt.hasArg then Fault(UnexpectedArgument)
      else if e.opt.hasArg && value.None? && !e.opt.optional then
        if i == |argv| then Fault(MissingArgument) else Call(c, calls, argv, i + 1, e, Some(argv[i]), "")
      else Call(c, calls, argv, i, e, value, "")
  }

  // ---------------------------------------------------------------- the machine

  function Clamped(s: State): State {
    var u := if s.quoted != 0 && s.next < s.quoted then s.(quoted := 0, argsOnly := false) else s;
    u.(last := if s.last > s.next then s.next else s.last, first := if s.first > s.next then s.next else s.first)
  }

  predicate Proper(s: State) {
    && s.first <= s.last <= s.next <= |s.argv| && s.quoted <= s.next
    && (s.nextchar != "" ==> !s.argsOnly) && (!s.argsOnly ==> s.quoted == 0)
  }

  function Applied(s: State, k: Take): (State, Status) {
    match k
    case Take(call, next, rest) => (s.(next := next, nextchar := rest, calls := s.calls + [call]), Continue)
    case Fault(why) => (s, Stopped(why))
  }

  /** `parser_parse_arg` on the element at `next`. */
  function ArgStep(c: Config, s: State): (State, Status)
    requires s.next < |s.argv|
  {
    match Offer(c, s.calls, s.argv[s.next..])
    case Each(g) =>
      var call := ArgCall(g, s.argv[s.next]);
      (s.(next := Advance(c, s.calls, s.argv, s.next + 1, call), calls := s.calls + [call]), Continue)
    case Whole(g) => (s.(next := |s.argv|, calls := s.calls + [ArgsCall(g)]), Continue)
    case Refused => (s, Exhausted)
  }

  /** `exchange`, with the skipped block relocated. */
  function Exchanged(s: State): State
    requires s.first <= s.last <= s.next <= |s.argv|
  {
    s.(argv := Rotated(s.argv, s.first, s.last, s.next), first := s.first + (s.next - s.last), last := s.next)
  }

  /** A non-option word where options are still looked for. */
  function PlainStep(c: Config, s: State): (State, Status)
    requires Proper(s) && s.next < |s.argv|
  {
    match c.ordering
    case Permute =>
      var u := if s.first == s.last then s.(first := s.next, last := s.next)
               else if s.last != s.next then Exchanged(s) else s;
      (u.(next := s.next + 1, last := s.next + 1), Continue)
    case RequireOrder => (s.(argsOnly := true), Continue)
    case InOrder => ArgStep(c, s)
  }

  function QuoteStep(s: State): (State, Status)
    requires Proper(s) && s.next < |s.argv|
  {
    var u := s.(next := s.next + 1);
    if s.first != s.last then
      var x := Exchanged(u);
      (x.(next := x.first, quoted := x.first, first := 0, last := 0, argsOnly := true), Continue)
    else
      (u.(quoted := u.next, argsOnly := true), Continue)
  }

  function EndStep(s: State): (State, Status)
    requires Proper(s)
  {
    if s.first != s.last then
      var x := Exchanged(s);
      (x.(next := x.first, first := 0, last := 0, argsOnly := true), Continue)
    else (s, Exhausted)
  }

  /** `parser_parse_next`. */
  function Step(c: Config, s: State): (State, Status)
    requires Proper(s)
  {
    if s.nextchar != "" then Applied(s, TakeShort(c, s.calls, s.argv, s.next, s.nextchar))
    else if s.argsOnly then if s.next == |s.argv| then (s, Exhausted) else ArgStep(c, s)
    else if s.next == |s.argv| then EndStep(s)
    else
      match Classify(c.longOnly, c.shortOpts, s.argv[s.next])
      case Plain => PlainStep(c, s)
      case Quote => QuoteStep(s)
      case Long(opt) => Applied(s.(next := s.next + 1), TakeLong(c, s.calls, s.argv, s.next + 1, opt))
      case LongOnly(opt) => Applied(s.(next := s.next + 1), TakeLong(c, s.calls, s.argv, s.next + 1, opt))
      case Short(opt) => (s.(next := s.next + 1, nextchar := opt), Continue)
  }

  /** Once callbacks only move `next` forward, the corrections at the head of a step do nothing. */
  lemma ClampIdle(s: State)
    requires Proper(s)
    ensures Clamped(s) == s
  {
  }

  /** A step keeps the state proper and, unless it ends the run, comes closer to the end. */
  lemma StepProper(c: Config, s: State)
    requires Proper(s)
    ensures Proper(Step(c, s).0) && |Step(c, s).0.argv| == |s.argv|
    ensures Step(c, s).1 == Continue ==>
      var u := Step(c, s).0;
      || (!s.argsOnly && u.argsOnly)
      || (s.argsOnly == u.argsOnly && u.next > s.next)
      || (s.argsOnly == u.argsOnly && u.next == s.next && |u.nextchar| < |s.nextchar|)
  {
    hide Rotated, FindShort, FindLong, Classify, OfferFrom, Value;
  }

  /** The loop of `__argp_parse`. */
  function Run(c: Config, s: State): (r: (State, Status))
    requires Proper(s)
    ensures Proper(r.0) && r.1 != Continue
    decreases !s.argsOnly, |s.argv| - s.next, |s.nextchar|
  {
    StepProper(c, s);
    var (u, st) := Step(c, s);
    if st == Continue then Run(c, u) else (u, st)
  }

  // ---------------------------------------------------------------- ARGP_KEY_ARGS

  /** Where `next` should be after ARGP_KEY_ARGS: at the end if the callback left it alone, else where it put it. */
  function Asked(c: Config, s: State, g: nat): (j: nat)
    requires s.next < |s.argv|
  {
    var j := Advance(c, s.calls, s.argv, s.next, ArgsCall(g));
    if j == s.next then |s.argv| else j
  }

  /** The step takes all elements; that is what the callback asked for exactly if it took none or all itself. */
  lemma WholeHonoured(c: Config, s: State)
    requires s.next < |s.argv| && Offer(c, s.calls, s.argv[s.next..]).Whole?
    ensures var g := Offer(c, s.calls, s.argv[s.next..]).group;
      var m := c.moves(s.calls, ArgsCall(g), s.argv[s.next..]);
      ArgStep(c, s).0.next == Asked(c, s, g) <==> m == 0 || s.next + m >= |s.argv|
  {
  }

  /** A parser that takes the first of two arguments by ARGP_KEY_ARGS loses the second. */
  lemma WholeOverruled()
    ensures var c := Config([], false, [], InOrder, 1, (h, e: Event, w) => e.ArgsCall?, (h, e, w) => 1);
      var s := Start(["a", "b"], 0);
      Step(c, s).0.next == 2 && Asked(c, s, 0) == 1 && Step(c, s).0.calls == [ArgsCall(0)]
  {
    var c := Config([], false, [], InOrder, 1, (h, e: Event, w) => e.ArgsCall?, (h, e, w) => 1);
    assert Offer(c, [], ["a", "b"]) == Whole(0);
    assert ["a", "b"][0..] == ["a", "b"];
  }

  function Start(argv: seq<string>, start: nat): State {
    State(argv, start, 0, 0, "", false, 0, [])
  }
}
