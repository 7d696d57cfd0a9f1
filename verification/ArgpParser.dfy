/** The argp parser in place: argv is permuted as an array while the cursors move over it. */
module ArgpParser {
  import opened Options
  import opened ArgpOptions
  import opened ArgvExchange
  import opened ArgpMachine
  import opened ArgpReading
  import opened ArgpTree

  class Parser {
    const config: Config
    const argv: array<string>
    var next: nat
    var firstNonopt: nat
    var lastNonopt: nat
    /** What is left of a cluster of short options; empty when there is none. */
    var nextchar: string
    var argsOnly: bool
    var quoted: nat
    var calls: seq<Event>

    ghost function View(): State
      reads this, argv
    {
      State(argv[..], next, firstNonopt, lastNonopt, nextchar, argsOnly, quoted, calls)
    }

    /** `parser_init`, with `start` past the program name unless ARGP_PARSE_ARGV0 is given. */
    constructor (c: Config, words: array<string>, start: nat)
      requires start <= words.Length
      ensures config == c && argv == words && View() == Start(words[..], start) && Proper(View())
    {
      config, argv, next := c, words, start;
      firstNonopt, lastNonopt, nextchar, argsOnly, quoted, calls := 0, 0, "", false, 0, [];
    }

    /** The user's parser, called for an option or an argument: it may take further elements. */
    method Callback(call: Event)
      requires next <= argv.Length
      modifies this`next, this`calls
      ensures next == Advance(config, old(calls), argv[..], old(next), call)
      ensures calls == old(calls) + [call]
    {
      next := Advance(config, calls, argv[..], next, call);
      calls := calls + [call];
    }

    /** `parser_parse_arg`: each group is offered the element, first by itself, then with all that follow. */
    method ParseArg() returns (st: Status)
      requires next < argv.Length
      modifies this`next, this`calls
      ensures (View(), st) == ArgStep(config, old(View()))
    {
      hide Advance;
      var index := next;
      ghost var words := argv[index..];
      ghost var want := Offer(config, calls, words);
      assert argv[..][index..] == words;
      st := Exhausted;
      var whole, g := false, 0;
      while g < config.groups && st == Exhausted
        invariant g <= config.groups && st in {Exhausted, Continue} && next <= argv.Length
        invariant st == Exhausted ==>
          !whole && next == index && calls == old(calls) && want == OfferFrom(config, calls, words, g)
        invariant st == Continue ==>
          if whole then want.Whole? && calls == old(calls) + [ArgsCall(want.group)]
          else
            && want.Each? && calls == old(calls) + [ArgCall(want.group, argv[index])]
            && next == Advance(config, old(calls), argv[..], index + 1, ArgCall(want.group, argv[index]))
      {
        next := next + 1;
        assert argv[next..] == words[1..] && argv[index] == words[0];
        if config.takes(calls, ArgCall(g, argv[index]), argv[next..]) {
          Callback(ArgCall(g, argv[index]));
          st := Continue;
        } else {
          next := next - 1;
          assert argv[next..] == words;
          if config.takes(calls, ArgsCall(g), argv[next..]) {
            Callback(ArgsCall(g));
            whole, st := true, Continue;
          }
        }
        g := g + 1;
      }
      if st == Continue && whole {
        next := argv.Length;
      }
    }

    /** `exchange`, which also relocates the skipped block. */
    method ExchangeBlocks()
      requires firstNonopt <= lastNonopt <= next <= argv.Length
      modifies this`firstNonopt, this`lastNonopt, argv
      ensures View() == Exchanged(old(View()))
    {
      Exchange(argv, firstNonopt, lastNonopt, next);
      firstNonopt := firstNonopt + (next - lastNonopt);
      lastNonopt := next;
    }

    /** A stopped run keeps argv and the calls it made; otherwise the step is exactly `Step`. */
    twostate predicate Stepped(st: Status)
      requires old(Proper(View()))
      reads this, argv
    {
      var (u, want) := Step(config, old(View()));
      && st == want
      && (if st.Stopped? then argv[..] == u.argv && calls == u.calls else View() == u)
    }

    method ParseShort() returns (st: Status)
      requires Proper(View()) && nextchar != ""
      modifies this`next, this`nextchar, this`calls
      ensures Stepped(st)
    {
      hide FindShort, FindLong, Classify, Value, Rotated;
      assert !argsOnly;
      var c := nextchar[0];
      nextchar := nextchar[1..];
      if c as int >= 128 {
        return Stopped(NotAscii);
      }
      match FindShort(config.table, c as int)
      case None => st := Stopped(UnknownOption);
      case Some(e) =>
        var value := None;
        if e.opt.hasArg {
          value := if nextchar == "" then None else Some(nextchar);
          nextchar := "";
          if value.None? && !e.opt.optional {
            if next == argv.Length {
              return Stopped(MissingArgument);
            }
            value := Some(argv[next]);
            next := next + 1;
          }
        }
        Callback(OptCall(e.group, e.opt.key, value));
        st := Continue;
    }

    method ParseLong(opt: string) returns (st: Status)
      requires Proper(View()) && nextchar == "" && !argsOnly && next < argv.Length
      requires Classify(config.longOnly, config.shortOpts, argv[next]) in {Long(opt), LongOnly(opt)}
      modifies this`next, this`calls
      ensures Stepped(st)
    {
      hide FindShort, FindLong, Classify, Value, Rotated;
      next := next + 1;
      match FindLong(config.table, opt)
      case None => st := Stopped(UnknownOption);
      case Some(e) =>
        var value := Value(opt);
        if value.Some? && !e.opt.hasArg {
          return Stopped(UnexpectedArgument);
        }
        if e.opt.hasArg && value.None? && !e.opt.optional {
          if next == argv.Length {
            return Stopped(MissingArgument);
          }
          value := Some(argv[next]);
          next := next + 1;
        }
        Callback(OptCall(e.group, e.opt.key, value));
        st := Continue;
    }

    method ParsePlain() returns (st: Status)
      requires Proper(View()) && nextchar == "" && !argsOnly && next < argv.Length
      modifies this, argv
      ensures (View(), st) == PlainStep(config, old(View()))
    {
      hide Rotated;
      match config.ordering
      case Permute =>
        if firstNonopt == lastNonopt {
          firstNonopt, lastNonopt := next, next;
        } else if lastNonopt != next {
          ExchangeBlocks();
        }
        assert lastNonopt == next;
        next := next + 1;
        lastNonopt := next;
        st := Continue;
      case RequireOrder =>
        argsOnly := true;
        st := Continue;
      case InOrder =>
        st := ParseArg();
    }

    method ParseQuote() returns (st: Status)
      requires Proper(View()) && nextchar == "" && !argsOnly && next < argv.Length
      modifies this, argv
      ensures (View(), st) == QuoteStep(old(View()))
    {
      hide Rotated;
      next := next + 1;
      assert lastNonopt != next;
      if firstNonopt != lastNonopt {
        ExchangeBlocks();
        next := firstNonopt;
        quoted := firstNonopt;
        firstNonopt, lastNonopt := 0, 0;
      } else {
        quoted := next;
      }
      argsOnly := true;
      st := Continue;
    }

    /** The corrections for a parser that moved `next` backwards. */
    method Clamp()
      modifies this`quoted, this`argsOnly, this`firstNonopt, this`lastNonopt
      ensures View() == Clamped(old(View()))
    {
      if quoted != 0 && next < quoted {
        quoted, argsOnly := 0, false;
      }
      if lastNonopt > next {
        lastNonopt := next;
      }
      if firstNonopt > next {
        firstNonopt := next;
      }
    }

    /** `parser_parse_next`; the assertions in the bodies are the ones the C code makes. */
    method ParseNext() returns (st: Status)
      requires Proper(View())
      modifies this, argv
      ensures Stepped(st)
    {
      hide FindShort, FindLong, Classify, Value, Rotated, OfferFrom;
      Clamp();
      assert View() == old(View());
      if nextchar != "" {
        st := ParseShort();
      } else if argsOnly {
        if next >= argv.Length {
          st := Exhausted;
        } else {
          st := ParseArg();
        }
      } else if next >= argv.Length {
        if firstNonopt != lastNonopt {
          ExchangeBlocks();
          next := firstNonopt;
          firstNonopt, lastNonopt := 0, 0;
          argsOnly := true;
          st := Continue;
        } else {
          st := Exhausted;
        }
      } else {
        match Classify(config.longOnly, config.shortOpts, argv[next])
        case Plain => st := ParsePlain();
        case Quote => st := ParseQuote();
        case Long(opt) => st := ParseLong(opt);
        case LongOnly(opt) => st := ParseLong(opt);
        case Short(opt) =>
          next := next + 1;
          nextchar := opt;
          st := Continue;
      }
    }

    /** The loop of `__argp_parse`. */
    method Parse() returns (st: Status)
      requires Proper(View())
      modifies this, argv
      ensures var (f, want) := Run(config, old(View()));
        && st == want && argv[..] == f.argv && calls == f.calls && (st == Exhausted ==> View() == f)
    {
      hide Step;
      st := Continue;
      while st == Continue
        invariant st == Continue ==> Proper(View()) && Run(config, View()) == Run(config, old(View()))
        invariant st != Continue ==>
          var (f, want) := Run(config, old(View()));
          && st == want && argv[..] == f.argv && calls == f.calls && (st == Exhausted ==> View() == f)
        decreases st == Continue, !argsOnly, if st == Continue then argv.Length - next else 0, |nextchar|
      {
        ghost var s := View();
        StepProper(config, s);
        st := ParseNext();
      }
    }
  }

  /** The whole of a PERMUTE parse: argv is partitioned in place, and the calls are those of the reading. */
  method ParsePermuting(c: Config, argv: array<string>, start: nat) returns (st: Status, calls: seq<Event>, end: nat)
    requires c.ordering == Permute && start <= argv.Length
    modifies argv
    ensures end <= argv.Length
    ensures var r := Read(c, [], old(argv[..]), start, "");
      && st == (match r.fault { case None => Exhausted case Some(why) => Stopped(why) })
      && (r.fault.Some? ==> calls == r.calls)
      && (r.fault.None? ==>
            && argv[..] == old(argv[..start]) + r.opts + QuoteWord(r) + r.nons
            && Shuffles(old(argv[start..]), r.opts + QuoteWord(r), r.nons)
            && calls == r.calls + ArgTail(c, r.calls, r.nons).calls
            && argv[end..] == ArgTail(c, r.calls, r.nons).left)
  {
    var p := new Parser(c, argv, start);
    PermuteRun(c, argv[..], start);
    if Read(c, [], argv[..], start, "").fault.None? {
      ReadStable(c, [], argv[..], start, "");
    }
    hide Run, Read, Shuffles;
    st := p.Parse();
    calls, end := p.calls, if st == Exhausted then p.next else 0;
  }

  /** The whole of `__argp_parse` between set-up and final calls: the tables of a tree, then the loop over them. */
  method ArgpParse(a: Argp, longOnly: bool, ordering: Ordering, takes: (seq<Event>, Event, seq<string>) -> bool,
                   moves: (seq<Event>, Event, seq<string>) -> nat, argv: array<string>, start: nat)
    returns (st: Status, calls: seq<Event>)
    requires ArraysPresent(Nodes(a)) && start <= argv.Length
    modifies argv
    ensures var groups := |Converted(a, None, 0, 0)|;
      var c := Config(Table(a), longOnly, ShortKeys(AllOptions(a)), ordering, groups, takes, moves);
      var (f, want) := Run(c, Start(old(argv[..]), start));
      st == want && argv[..] == f.argv && calls == f.calls
  {
    hide Run, Converted, ShortKeys;
    var t := new Tables();
    t.Convert(a, None, 0);
    assert t.groups == Converted(a, None, 0, 0) && t.shortOpts == ShortKeys(AllOptions(a));
    var c := Config(TableFrom(t.groups, 0), longOnly, t.shortOpts, ordering, |t.groups|, takes, moves);
    var p := new Parser(c, argv, start);
    st := p.Parse();
    calls := p.calls;
  }
}
