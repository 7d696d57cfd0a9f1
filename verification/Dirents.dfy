/** The wire format of directory entries. */
module Dirents {
  import opened Options
  import opened ByteOrder
  import opened Buffers

  /** A NUL-free name. */
  type Name = s: seq<Byte> | 0 !in s witness []

  datatype Dirent = Dirent(ino: U64, off: U64, len: U32, kind: U32, name: Name)

  /** The fixed part in front of a name. */
  const HEADER := 24

  /** `gf_dirent_nb_size`. */
  function Size(e: Dirent): (n: nat)
    ensures n == HEADER + |e.name + [0]|
  {
    HEADER + |e.name| + 1
  }

  function Total(es: seq<Dirent>): nat {
    if es == [] then 0 else Total(es[..|es| - 1]) + Size(es[|es| - 1])
  }

  // ---------------------------------------------------------------- printing

  function Header(little: bool, e: Dirent): (s: seq<Byte>)
    ensures |s| == HEADER
  {
    Put8(little, e.ino) + Put8(little, e.off) + Put4(little, e.len) + Put4(little, e.kind)
  }

  function EntryWire(little: bool, e: Dirent): (s: seq<Byte>)
    ensures |s| == Size(e)
  {
    Header(little, e) + e.name + [0]
  }

  function Wire(little: bool, es: seq<Dirent>): (s: seq<Byte>)
    ensures |s| == Total(es)
  {
    if es == [] then [] else Wire(little, es[..|es| - 1]) + EntryWire(little, es[|es| - 1])
  }

  /** How many entries from the front fit into `room` bytes. */
  function Fitting(es: seq<Dirent>, room: nat): (n: nat)
    ensures n <= |es|
  {
    if es == [] then 0
    else if Total(es) <= room then |es| else Fitting(es[..|es| - 1], room)
  }

  lemma {:induction false} TotalGrows(es: seq<Dirent>, m: nat, n: nat)
    requires m < n <= |es|
    ensures Total(es[..m]) < Total(es[..n])
    decreases n
  {
    assert es[..n][..n - 1] == es[..n - 1];
    if m < n - 1 { TotalGrows(es, m, n - 1); }
  }

  /** `Fitting` is the longest prefix that fits. */
  lemma {:induction false} FittingLongest(es: seq<Dirent>, room: nat, n: nat)
    requires n <= |es|
    ensures Total(es[..n]) <= room <==> n <= Fitting(es, room)
    decreases |es|
  {
    if es == [] {
    } else {
      assert es[..|es|] == es;
      var init := es[..|es| - 1];
      if n < |es| {
        assert init[..n] == es[..n];
        FittingLongest(init, room, n);
        TotalGrows(es, n, |es|);
      }
    }
  }

  lemma TotalNext(es: seq<Dirent>, i: nat)
    requires i < |es|
    ensures Total(es[..i + 1]) == Total(es[..i]) + Size(es[i])
  {
    assert es[..i + 1][..i] == es[..i];
  }

  lemma WireNext(little: bool, es: seq<Dirent>, i: nat)
    requires i < |es|
    ensures Wire(little, es[..i + 1]) == Wire(little, es[..i]) + EntryWire(little, es[i])
  {
    hide EntryWire;
    assert es[..i + 1][..i] == es[..i];
  }

  // ---------------------------------------------------------------- parsing

  /** `Astray` where a name has no NUL in the buffer and `strnlen` reads on behind it. */
  datatype Outcome = Done | Astray

  datatype Parse = Parse(entries: seq<Dirent>, outcome: Outcome)

  /** The entry at `pos`, whose name ends within the buffer. */
  function EntryAt(little: bool, buf: seq<Byte>, pos: nat): (r: Option<Dirent>)
    requires pos + HEADER <= |buf|
    ensures r.Some? ==> pos + Size(r.value) <= |buf|
  {
    match StringAt(buf, pos + HEADER)
    case None => None
    case Some(name) =>
      Some(Dirent(Get8(little, buf[pos..pos + 8]), Get8(little, buf[pos + 8..pos + 16]),
                  Get4(little, buf[pos + 16..pos + 20]), Get4(little, buf[pos + 20..pos + 24]), name))
  }

  /** The loop of `gf_dirent_unserialize`: it goes on while a header and two more bytes are left. */
  function EntriesAt(little: bool, buf: seq<Byte>, pos: nat): Parse
    requires pos <= |buf|
    decreases |buf| - pos
  {
    if |buf| - pos < HEADER + 2 then Parse([], Done)
    else
      match EntryAt(little, buf, pos)
      case None => Parse([], Astray)
      case Some(e) =>
        var rest := EntriesAt(little, buf, pos + Size(e));
        Parse([e] + rest.entries, rest.outcome)
  }

  // ---------------------------------------------------------------- parsing undoes printing

  lemma HeaderSlices(little: bool, a: seq<Byte>, e: Dirent, b: seq<Byte>)
    ensures var buf, i := a + Header(little, e) + b, |a|;
      && buf[i..i + 8] == Put8(little, e.ino) && buf[i + 8..i + 16] == Put8(little, e.off)
      && buf[i + 16..i + 20] == Put4(little, e.len) && buf[i + 20..i + 24] == Put4(little, e.kind)
  {
    hide Put4, Put8;
    var buf, h, i := a + Header(little, e) + b, Header(little, e), |a|;
    assert buf[i..i + HEADER] == h;
    assert h[..8] == Put8(little, e.ino) && h[8..16] == Put8(little, e.off);
    assert h[16..20] == Put4(little, e.len) && h[20..24] == Put4(little, e.kind);
    assert buf[i..i + 8] == h[..8] && buf[i + 8..i + 16] == h[8..16];
    assert buf[i + 16..i + 20] == h[16..20] && buf[i + 20..i + 24] == h[20..24];
  }

  lemma EntryPut(little: bool, a: seq<Byte>, e: Dirent, b: seq<Byte>)
    ensures EntryAt(little, a + EntryWire(little, e) + b, |a|) == Some(e)
  {
    hide Put4, Put8, Get4, Get8, StringAt, Header;
    var buf := a + EntryWire(little, e) + b;
    var h := Header(little, e);
    assert buf == (a + h) + e.name + [0] + b;
    StringPut(a + h, e.name, b);
    assert buf == a + h + (e.name + [0] + b);
    HeaderSlices(little, a, e, e.name + [0] + b);
    GetPut8(little, e.ino);
    GetPut8(little, e.off);
    GetPut4(little, e.len);
    GetPut4(little, e.kind);
  }

  /** Whether the loop reaches the last entry: it misses one with an empty name. */
  predicate LastNamed(es: seq<Dirent>) {
    es == [] || es[|es| - 1].name != []
  }

  /** What parsing recovers: everything, except that a last entry with an empty name is dropped. */
  function Recovered(es: seq<Dirent>): seq<Dirent> {
    if LastNamed(es) then es else es[..|es| - 1]
  }

  lemma WireAll(little: bool, es: seq<Dirent>)
    requires es != []
    ensures Wire(little, es) == EntryWire(little, es[0]) + Wire(little, es[1..])
    decreases |es|
  {
    hide EntryWire;
    var init, last := es[..|es| - 1], es[|es| - 1];
    if |es| == 1 {
      assert init == [] && es[1..] == [];
      assert [] + EntryWire(little, es[0]) == EntryWire(little, es[0]) + [];
    } else {
      WireAll(little, init);
      assert init[1..] == es[1..][..|es| - 2] && es[1..][|es| - 2] == last;
      assert EntryWire(little, es[0]) + Wire(little, init[1..]) + EntryWire(little, last)
          == EntryWire(little, es[0]) + (Wire(little, init[1..]) + EntryWire(little, last));
    }
  }

  lemma ParseStep(little: bool, a: seq<Byte>, e: Dirent, rest: seq<Byte>)
    requires Size(e) + |rest| >= HEADER + 2
    ensures var first := EntryWire(little, e); var buf := a + first + rest;
      var r := EntriesAt(little, buf, |a + first|);
      EntriesAt(little, buf, |a|) == Parse([e] + r.entries, r.outcome)
  {
    hide EntryWire, EntryAt;
    EntryPut(little, a, e, rest);
  }

  lemma ParseEnd(little: bool, buf: seq<Byte>, pos: nat)
    requires pos <= |buf| < pos + HEADER + 2
    ensures EntriesAt(little, buf, pos) == Parse([], Done)
  {
  }

  lemma WireSize(little: bool, es: seq<Dirent>)
    requires es != []
    ensures |Wire(little, es)| >= HEADER + 1
  {
    hide EntryWire;
  }

  lemma {:induction false} ParseFrom(little: bool, a: seq<Byte>, es: seq<Dirent>)
    ensures EntriesAt(little, a + Wire(little, es), |a|) == Parse(Recovered(es), Done)
    decreases |es|
  {
    hide EntryWire, EntryAt, Wire, EntriesAt;
    if es == [] {
      WireNil(little);
      ParseEnd(little, a + [], |a|);
    } else {
      var first, rest := EntryWire(little, es[0]), Wire(little, es[1..]);
      WireAll(little, es);
      assert a + (first + rest) == a + first + rest;
      if |es| > 1 { WireSize(little, es[1..]); RecoveredCons(es); }
      if Size(es[0]) + |rest| >= HEADER + 2 {
        ParseStep(little, a, es[0], rest);
        ParseFrom(little, a + first, es[1..]);
        assert |es| == 1 ==> Recovered(es) == es == [es[0]] + Recovered(es[1..]);
      } else {
        ParseEnd(little, a + first + rest, |a|);
        assert |es| == 1 && Recovered(es) == [];
      }
    }
  }

  lemma WireNil(little: bool)
    ensures Wire(little, []) == []
  {
  }

  lemma RecoveredCons(es: seq<Dirent>)
    requires |es| > 1
    ensures Recovered(es) == [es[0]] + Recovered(es[1..])
  {
    assert es[1..][|es| - 2] == es[|es| - 1];
    if LastNamed(es) {
      assert es == [es[0]] + es[1..];
    } else {
      assert es[..|es| - 1] == [es[0]] + es[1..][..|es| - 2];
    }
  }

  /** A full listing comes back whole exactly when it is empty or its last name is not. */
  lemma RoundTrip(little: bool, es: seq<Dirent>)
    ensures EntriesAt(little, Wire(little, es), 0) == Parse(Recovered(es), Done)
    ensures EntriesAt(little, Wire(little, es), 0).entries == es <==> LastNamed(es)
  {
    ParseFrom(little, [], es);
    assert [] + Wire(little, es) == Wire(little, es);
  }

  /** The entries of a directory listing, in list order. */
  class DirentList {
    var entries: seq<Dirent>

    constructor ()
      ensures entries == []
    {
      entries := [];
    }

    /**
    `gf_dirent_serialize`. The result is the size of everything, whatever the buffer; the buffer, if there
    is one, receives exactly the longest prefix of entries that fits.
    */
    method Serialize(little: bool, buf: array?<Byte>) returns (size: nat)
      modifies buf
      ensures size == Total(entries)
      ensures buf != null ==>
        Filled(buf[..], Wire(little, entries[..Fitting(entries, buf.Length)]), old(buf[..]))
    {
      hide Filled, Wire, EntryWire, Total, Fitting;
      size := 0;
      ghost var n := if buf != null then Fitting(entries, buf.Length) else 0;
      ghost var base := if buf != null then buf[..] else [];
      Start(little, entries);
      FilledNone(base);
      for i := 0 to |entries|
        invariant size == Total(entries[..i])
        invariant buf != null ==>
          Filled(buf[..], Wire(little, entries[..if i <= n then i else n]), base)
      {
        TotalNext(entries, i);
        WireNext(little, entries, i);
        if buf != null {
          FittingLongest(entries, buf.Length, i + 1);
          FittingLongest(entries, buf.Length, i);
          if size + Size(entries[i]) <= buf.Length {
            WriteEntry(little, buf, size, entries[i], Wire(little, entries[..i]), base);
          }
        }
        size := size + Size(entries[i]);
      }
      assert entries[..|entries|] == entries;
    }

    /** `gf_dirent_unserialize`: what the buffer holds is added at the end of the list, and counted. */
    method Unserialize(little: bool, buf: seq<Byte>) returns (count: nat, outcome: Outcome)
      modifies this
      ensures var p := EntriesAt(little, buf, 0);
        entries == old(entries) + p.entries && outcome == p.outcome && count == |p.entries|
    {
      hide EntryAt;
      count := 0;
      var pos := 0;
      assert entries + EntriesAt(little, buf, 0).entries == old(entries) + EntriesAt(little, buf, 0).entries;
      while |buf| - pos >= HEADER + 2
        invariant pos <= |buf|
        invariant var rest, all := EntriesAt(little, buf, pos), EntriesAt(little, buf, 0);
          && entries + rest.entries == old(entries) + all.entries && rest.outcome == all.outcome
          && count + |rest.entries| == |all.entries|
        decreases |buf| - pos
      {
        match EntryAt(little, buf, pos)
        case None =>
          return count, Astray;
        case Some(e) =>
          ghost var rest := EntriesAt(little, buf, pos + Size(e));
          assert entries + ([e] + rest.entries) == (entries + [e]) + rest.entries;
          entries := entries + [e];
          pos, count := pos + Size(e), count + 1;
      }
      outcome := Done;
    }
  }

  lemma Start(little: bool, es: seq<Dirent>)
    ensures Total(es[..0]) == 0 && Wire(little, es[..0]) == []
  {
  }

  method WriteEntry(little: bool, buf: array<Byte>, at: nat, e: Dirent, ghost done: seq<Byte>, ghost base: seq<Byte>)
    requires at == |done| && at + Size(e) <= buf.Length && Filled(buf[..], done, base)
    modifies buf
    ensures Filled(buf[..], done + EntryWire(little, e), base)
  {
    hide Filled, Put4, Put8;
    ghost var a, b, c, d := Put8(little, e.ino), Put8(little, e.off), Put4(little, e.len), Put4(little, e.kind);
    Write(buf, at, Put8(little, e.ino), done, base);
    Write(buf, at + 8, Put8(little, e.off), done + a, base);
    Write(buf, at + 16, Put4(little, e.len), done + a + b, base);
    Write(buf, at + 20, Put4(little, e.kind), done + a + b + c, base);
    Write(buf, at + 24, e.name + [0], done + a + b + c + d, base);
    assert done + a + b + c + d + (e.name + [0]) == done + (a + b + c + d + e.name + [0]);
  }
}
