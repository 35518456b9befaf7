/** Annex-B byte streams: NAL units behind start codes, split and joined. */
module AnnexB {
  import opened Bytes

  /** 00 00 01 at `i`. */
  predicate ShortCodeAt(p: seq<byte>, i: nat) {
    i + 2 < |p| && p[i] == 0 && p[i + 1] == 0 && p[i + 2] == 1
  }

  /** 00 00 00 01 at `i`. */
  predicate LongCodeAt(p: seq<byte>, i: nat) {
    i + 3 < |p| && p[i] == 0 && p[i + 1] == 0 && p[i + 2] == 0 && p[i + 3] == 1
  }

  predicate CodeAt(p: seq<byte>, i: nat) {
    ShortCodeAt(p, i) || LongCodeAt(p, i)
  }

  /** Length of the start code at `i`; a short one is looked for first. */
  function CodeLength(p: seq<byte>, i: nat): nat {
    if ShortCodeAt(p, i) then 3 else 4
  }

  /** The first start code at or after `from`, or the end. */
  function NextCode(p: seq<byte>, from: nat): (i: nat)
    requires from <= |p|
    ensures from <= i <= |p|
    ensures i < |p| ==> CodeAt(p, i)
    ensures forall j :: from <= j < i ==> !CodeAt(p, j)
    decreases |p| - from
  {
    if from == |p| || CodeAt(p, from) then from else NextCode(p, from + 1)
  }

  /** The units from `from` on: each reaches from the end of one start code to the next; empty ones are skipped. */
  function Units(p: seq<byte>, from: nat): seq<seq<byte>>
    requires from <= |p|
    decreases |p| - from
  {
    var code := NextCode(p, from);
    if code == |p| then []
    else
      var start := code + CodeLength(p, code);
      var end := NextCode(p, start);
      (if start < end then [p[start..end]] else []) + Units(p, end)
  }

  lemma NoUnitsAtEnd(p: seq<byte>)
    ensures Units(p, |p|) == []
  {
  }

  lemma SkipNonCode(p: seq<byte>, at: nat)
    requires at < |p| && !CodeAt(p, at)
    ensures Units(p, at) == Units(p, at + 1)
  {
    assert NextCode(p, at) == NextCode(p, at + 1);
  }

  lemma UnitBehindCode(p: seq<byte>, at: nat, start: nat, end: nat, rest: seq<seq<byte>>)
    requires at < |p| && CodeAt(p, at) && start == at + CodeLength(p, at)
    requires end == NextCode(p, start) && rest == Units(p, end)
    ensures start < end ==> Units(p, at) == [p[start..end]] + rest
    ensures start == end ==> Units(p, at) == rest
  {
    assert NextCode(p, at) == at;
  }

  method ScanUnit(payload: seq<byte>, start: nat) returns (cursor: nat)
    requires start <= |payload|
    ensures cursor == NextCode(payload, start)
  {
    cursor := start;
    while cursor < |payload|
      invariant start <= cursor <= |payload|
      invariant NextCode(payload, start) == NextCode(payload, cursor)
      decreases |payload| - cursor
    {
      if ShortCodeAt(payload, cursor) {
        break;
      }
      if LongCodeAt(payload, cursor) {
        break;
      }
      cursor := cursor + 1;
    }
  }

  method SplitAnnexB(payload: seq<byte>) returns (units: seq<seq<byte>>)
    ensures units == Units(payload, 0)
  {
    units := [];
    var cursor := 0;
    hide Units, NextCode;
    while cursor < |payload|
      invariant cursor <= |payload|
      invariant units + Units(payload, cursor) == Units(payload, 0)
      decreases |payload| - cursor
    {
      ghost var code := cursor;
      if ShortCodeAt(payload, cursor) {
        cursor := cursor + 3;
      } else if LongCodeAt(payload, cursor) {
        cursor := cursor + 4;
      } else {
        SkipNonCode(payload, cursor);
        cursor := cursor + 1;
        continue;
      }
      var start := cursor;
      ghost var end := NextCode(payload, start);
      ghost var rest := Units(payload, end);
      UnitBehindCode(payload, code, start, end, rest);
      if cursor >= |payload| {
        break;
      }
      cursor := ScanUnit(payload, start);
      if start < cursor {
        units := units + [payload[start..cursor]];
      }
    }
    NoUnitsAtEnd(payload);
  }

  // ---------- Joining ----------

  function Join(units: seq<seq<byte>>): seq<byte> {
    if units == [] then [] else [0, 0, 0, 1] + units[0] + Join(units[1..])
  }

  lemma {:induction false} JoinSnoc(units: seq<seq<byte>>, u: seq<byte>)
    ensures Join(units + [u]) == Join(units) + ([0, 0, 0, 1] + u)
  {
    if units == [] {
      assert [u][1..] == [];
    } else {
      assert (units + [u])[1..] == units[1..] + [u];
      JoinSnoc(units[1..], u);
    }
  }

  method AnnexBFromUnits(units: seq<seq<byte>>) returns (out: seq<byte>)
    ensures out == Join(units)
  {
    out := [];
    for i := 0 to |units|
      invariant out == Join(units[..i])
    {
      JoinSnoc(units[..i], units[i]);
      assert units[..i + 1] == units[..i] + [units[i]];
      out := out + [0, 0, 0, 1];
      out := out + units[i];
    }
    assert units[..|units|] == units;
  }

  // ---------- Splitting inverts joining ----------

  /** A unit that a start code can delimit: not empty, and with no start code of its own. */
  ghost predicate Delimitable(unit: seq<byte>) {
    unit != [] && forall i :: 0 <= i < |unit| ==> !ShortCodeAt(unit, i)
  }

  /** Splitting any payload yields delimitable units only. */
  lemma {:induction false} UnitsAreDelimitable(p: seq<byte>, from: nat)
    requires from <= |p|
    ensures forall u :: u in Units(p, from) ==> Delimitable(u)
    decreases |p| - from
  {
    var code := NextCode(p, from);
    if code < |p| {
      var start := code + CodeLength(p, code);
      var end := NextCode(p, start);
      UnitsAreDelimitable(p, end);
      if start < end {
        var u := p[start..end];
        forall i | 0 <= i < |u| ensures !ShortCodeAt(u, i) {
          assert !CodeAt(p, start + i);
        }
      }
    }
  }

  /** A unit behind a start code of three or of four bytes. */
  datatype Piece = Piece(short: bool, unit: seq<byte>)

  function JoinMixed(pieces: seq<Piece>): seq<byte> {
    if pieces == [] then []
    else (if pieces[0].short then [0, 0, 1] else [0, 0, 0, 1]) + pieces[0].unit + JoinMixed(pieces[1..])
  }

  function UnitsOf(pieces: seq<Piece>): seq<seq<byte>> {
    if pieces == [] then [] else [pieces[0].unit] + UnitsOf(pieces[1..])
  }

  /** The first unit ends in a zero byte and the second code is short: the zero is taken for a part of the code. */
  predicate LosesZero(pieces: seq<Piece>) {
    |pieces| > 1 && pieces[1].short && pieces[0].unit != [] && pieces[0].unit[|pieces[0].unit| - 1] == 0
  }

  function Kept(pieces: seq<Piece>): seq<byte>
    requires pieces != []
  {
    var unit := pieces[0].unit;
    if LosesZero(pieces) then unit[..|unit| - 1] else unit
  }

  /** What comes back of the units: each without a zero byte lost to a short code, if anything is left. */
  function Trimmed(pieces: seq<Piece>): seq<seq<byte>> {
    if pieces == [] then []
    else (if Kept(pieces) == [] then [] else [Kept(pieces)]) + Trimmed(pieces[1..])
  }

  ghost predicate NoCodeIn(unit: seq<byte>) {
    forall i :: 0 <= i < |unit| ==> !ShortCodeAt(unit, i)
  }

  /** Where the next code is found after bytes `u` without a code: before the zero they end in, if a short one
      follows. */
  lemma NextCodeAfter(p: seq<byte>, at: nat, u: seq<byte>, pieces: seq<Piece>)
    requires at <= |p| && p[at..] == u + JoinMixed(pieces) && NoCodeIn(u)
    ensures at + |u| <= |p| && p[at..at + |u|] == u && p[at + |u|..] == JoinMixed(pieces)
    ensures var loses := pieces != [] && pieces[0].short && u != [] && u[|u| - 1] == 0;
            NextCode(p, at) == if loses then at + |u| - 1 else at + |u|
  {
    var end, rest := at + |u|, JoinMixed(pieces);
    assert |p[at..]| == |u| + |rest|;
    assert p[at..][..|u|] == u && p[at..][|u|..] == rest;
    assert forall i :: at <= i < end ==> p[i] == u[i - at];
    if pieces != [] {
      CodeInFront(p, end, pieces);
    }
    NoCodeBefore(p, at, u, end);
  }

  /** The bytes of the first code. */
  lemma CodeInFront(p: seq<byte>, at: nat, pieces: seq<Piece>)
    requires at <= |p| && p[at..] == JoinMixed(pieces) && pieces != []
    ensures if pieces[0].short then ShortCodeAt(p, at) else LongCodeAt(p, at) && !ShortCodeAt(p, at)
    ensures var start := at + if pieces[0].short then 3 else 4;
            start <= |p| && p[start..] == pieces[0].unit + JoinMixed(pieces[1..])
  {
    var rest := p[at..];
    var code := if pieces[0].short then [0, 0, 1] else [0, 0, 0, 1];
    assert rest == code + (pieces[0].unit + JoinMixed(pieces[1..]));
    assert forall i :: 0 <= i < |code| ==> p[at + i] == rest[i] && rest[i] == code[i];
    assert p[at + |code|..] == rest[|code|..];
  }

  /** Within code-free bytes and the zeros of the next code there is no code but the one that ends with it. */
  lemma NoCodeBefore(p: seq<byte>, at: nat, u: seq<byte>, end: nat)
    requires end == at + |u| <= |p| && (forall i :: at <= i < end ==> p[i] == u[i - at]) && NoCodeIn(u)
    requires end == |p| || CodeAt(p, end)
    ensures var loses := end < |p| && ShortCodeAt(p, end) && u != [] && u[|u| - 1] == 0;
            NextCode(p, at) == if loses then end - 1 else end
  {
    var loses := end < |p| && ShortCodeAt(p, end) && u != [] && u[|u| - 1] == 0;
    var found := if loses then end - 1 else end;
    forall i | at <= i < found ensures !CodeAt(p, i) {
      assert !ShortCodeAt(u, i - at);
      if i + 1 < end {
        assert !ShortCodeAt(u, i + 1 - at);
      }
    }
    if loses {
      assert LongCodeAt(p, end - 1);
    }
    assert found < |p| ==> CodeAt(p, found);
    FirstCodeIs(p, at, found);
  }

  lemma FirstCodeIs(p: seq<byte>, at: nat, found: nat)
    requires at <= found <= |p| && (found < |p| ==> CodeAt(p, found))
    requires forall i :: at <= i < found ==> !CodeAt(p, i)
    ensures NextCode(p, at) == found
  {
    hide CodeAt;
  }

  /** A code found one zero early opens the same unit. */
  lemma SameUnitBehind(p: seq<byte>, at: nat)
    requires 0 < at < |p| && p[at - 1] == 0 && ShortCodeAt(p, at)
    ensures Units(p, at - 1) == Units(p, at)
  {
    assert LongCodeAt(p, at - 1) && !ShortCodeAt(p, at - 1);
    assert NextCode(p, at - 1) == at - 1 && NextCode(p, at) == at;
  }

  /** Units without codes of their own, joined behind any mix of codes: exactly the trimmed units come back. */
  lemma {:induction false} SplitGivesTrimmed(p: seq<byte>, at: nat, pieces: seq<Piece>)
    requires at <= |p| && p[at..] == JoinMixed(pieces)
    requires forall i :: 0 <= i < |pieces| ==> NoCodeIn(pieces[i].unit)
    ensures Units(p, at) == Trimmed(pieces)
    decreases |pieces|
  {
    hide Units, NoCodeIn, JoinMixed, Kept;
    if pieces == [] {
      assert p[at..] == [] by { NothingJoined(); }
      NoUnitsAtEnd(p);
    } else {
      SplitOffPiece(p, at, pieces);
      SplitGivesTrimmed(p, at + (if pieces[0].short then 3 else 4) + |pieces[0].unit|, pieces[1..]);
    }
  }

  lemma SplitOffPiece(p: seq<byte>, at: nat, pieces: seq<Piece>)
    requires at <= |p| && p[at..] == JoinMixed(pieces) && pieces != [] && NoCodeIn(pieces[0].unit)
    ensures var end := at + (if pieces[0].short then 3 else 4) + |pieces[0].unit|;
            end <= |p| && p[end..] == JoinMixed(pieces[1..])
            && Units(p, at) == (if Kept(pieces) == [] then [] else [Kept(pieces)]) + Units(p, end)
  {
    hide Units, NextCode, NoCodeIn, JoinMixed;
    var u, rest := pieces[0].unit, pieces[1..];
    var start := at + if pieces[0].short then 3 else 4;
    var end := start + |u|;
    CodeInFront(p, at, pieces);
    NextCodeAfter(p, start, u, rest);
    if LosesZero(pieces) {
      CodeInFront(p, end, rest);
      assert p[start..end][|u| - 1] == p[end - 1];
      SameUnitBehind(p, end);
      assert p[start..end - 1] == u[..|u| - 1];
      UnitBehindCode(p, at, start, end - 1, Units(p, end));
    } else {
      UnitBehindCode(p, at, start, end, Units(p, end));
    }
  }

  lemma NothingJoined()
    ensures JoinMixed([]) == []
  {
  }

  /** Bytes before the first code are passed over. */
  lemma LeadingBytesAreSkipped(junk: seq<byte>, pieces: seq<Piece>)
    requires NoCodeIn(junk) && forall i :: 0 <= i < |pieces| ==> NoCodeIn(pieces[i].unit)
    ensures Units(junk + JoinMixed(pieces), 0) == Trimmed(pieces)
  {
    hide Units, JoinMixed, NoCodeIn;
    var p := junk + JoinMixed(pieces);
    assert p[0..] == p;
    NextCodeAfter(p, 0, junk, pieces);
    SplitGivesTrimmed(p, |junk|, pieces);
    var found := NextCode(p, 0);
    StartsAtNextCode(p, 0);
    if found < |junk| {
      CodeInFront(p, |junk|, pieces);
      assert p[0..|junk|][|junk| - 1] == p[|junk| - 1];
      SameUnitBehind(p, |junk|);
    }
  }

  lemma StartsAtNextCode(p: seq<byte>, at: nat)
    requires at <= |p|
    ensures Units(p, at) == Units(p, NextCode(p, at))
  {
    var code := NextCode(p, at);
    if code == |p| {
      NoUnitsAtEnd(p);
    } else {
      assert NextCode(p, code) == code;
    }
  }

  /** Nothing is lost to a short code. */
  ghost predicate LosesNothing(pieces: seq<Piece>) {
    forall i :: 0 <= i < |pieces| ==> !LosesZero(pieces[i..])
  }

  lemma {:induction false} TrimmedIsShorter(pieces: seq<Piece>)
    ensures |Trimmed(pieces)| <= |pieces|
  {
    if pieces != [] {
      TrimmedIsShorter(pieces[1..]);
    }
  }

  lemma {:induction false} TrimmedIsAllIff(pieces: seq<Piece>)
    requires forall i :: 0 <= i < |pieces| ==> pieces[i].unit != []
    ensures |UnitsOf(pieces)| == |pieces|
    ensures Trimmed(pieces) == UnitsOf(pieces) <==> LosesNothing(pieces)
  {
    if pieces != [] {
      var rest := pieces[1..];
      TrimmedIsAllIff(rest);
      TrimmedIsShorter(rest);
      LosesNothingSplits(pieces);
      var all, kept := UnitsOf(pieces), Trimmed(pieces);
      assert all[0] == pieces[0].unit && all[1..] == UnitsOf(rest);
      if Kept(pieces) != [] {
        assert kept[0] == Kept(pieces) && kept[1..] == Trimmed(rest);
        assert kept == all <==> kept[0] == all[0] && kept[1..] == all[1..] by {
          assert kept == [kept[0]] + kept[1..] && all == [all[0]] + all[1..];
        }
      }
    }
  }

  lemma LosesNothingSplits(pieces: seq<Piece>)
    requires pieces != []
    ensures LosesNothing(pieces) <==> !LosesZero(pieces) && LosesNothing(pieces[1..])
  {
    hide LosesZero;
    assert pieces[0..] == pieces;
    if !LosesZero(pieces) && LosesNothing(pieces[1..]) {
      forall i | 0 <= i < |pieces| ensures !LosesZero(pieces[i..]) {
        assert i > 0 ==> pieces[1..][i - 1..] == pieces[i..];
      }
    }
    if LosesNothing(pieces) {
      forall i | 0 <= i < |pieces| - 1 ensures !LosesZero(pieces[1..][i..]) {
        assert pieces[1..][i..] == pieces[i + 1..];
      }
    }
  }

  lemma {:induction false} UnitsOfAt(pieces: seq<Piece>)
    ensures |UnitsOf(pieces)| == |pieces|
    ensures forall i :: 0 <= i < |pieces| ==> UnitsOf(pieces)[i] == pieces[i].unit
  {
    if pieces != [] {
      UnitsOfAt(pieces[1..]);
    }
  }

  /** Units joined behind any mix of three-byte and four-byte codes come back exactly if and only if each is non-empty
      and contains no 00 00 01, and none that a three-byte code follows ends in a zero byte. */
  lemma SplitInvertsMixedJoinIff(pieces: seq<Piece>)
    ensures Units(JoinMixed(pieces), 0) == UnitsOf(pieces)
       <==> (forall i :: 0 <= i < |pieces| ==> Delimitable(pieces[i].unit)) && LosesNothing(pieces)
  {
    hide Units, JoinMixed, LosesZero;
    var p := JoinMixed(pieces);
    assert p[0..] == p;
    UnitsAreDelimitable(p, 0);
    UnitsOfAt(pieces);
    if forall i :: 0 <= i < |pieces| ==> Delimitable(pieces[i].unit) {
      SplitGivesTrimmed(p, 0, pieces);
      TrimmedIsAllIff(pieces);
    } else {
      var i :| 0 <= i < |pieces| && !Delimitable(pieces[i].unit);
      assert UnitsOf(pieces)[i] in UnitsOf(pieces);
    }
  }

  function BehindLongCodes(units: seq<seq<byte>>): (pieces: seq<Piece>)
    ensures |pieces| == |units| && forall i :: 0 <= i < |units| ==> pieces[i] == Piece(false, units[i])
  {
    seq(|units|, i requires 0 <= i < |units| => Piece(false, units[i]))
  }

  lemma {:induction false} JoinIsMixed(units: seq<seq<byte>>)
    ensures JoinMixed(BehindLongCodes(units)) == Join(units) && UnitsOf(BehindLongCodes(units)) == units
  {
    if units != [] {
      JoinIsMixed(units[1..]);
      assert BehindLongCodes(units)[1..] == BehindLongCodes(units[1..]);
    }
  }

  /** Splitting a joined stream gives back exactly the units joined if and only if each unit is non-empty and
      contains no 00 00 01. */
  lemma SplitInvertsJoinIff(units: seq<seq<byte>>)
    ensures Units(Join(units), 0) == units <==> forall u :: u in units ==> Delimitable(u)
  {
    hide Units, Join, JoinMixed, UnitsOf, Delimitable;
    var pieces := BehindLongCodes(units);
    JoinIsMixed(units);
    SplitInvertsMixedJoinIff(pieces);
    assert LosesNothing(pieces);
    if forall i :: 0 <= i < |pieces| ==> Delimitable(pieces[i].unit) {
      forall u | u in units ensures Delimitable(u) {
        var i :| 0 <= i < |units| && units[i] == u;
        assert pieces[i].unit == u;
      }
    }
  }

  /** An ordinary payload: one unit behind a three-byte code, after a byte that belongs to none. */
  lemma ShortCodePayload()
    ensures Units([0x7F, 0, 0, 1, 0x65, 0x88, 0, 0, 0, 1, 0x41], 0) == [[0x65, 0x88], [0x41]]
  {
    hide Units, Trimmed, Kept, JoinMixed;
    var pieces := [Piece(true, [0x65, 0x88]), Piece(false, [0x41])];
    PayloadPieces(pieces);
    LeadingBytesAreSkipped([0x7F], pieces);
    assert [0x7F] + JoinMixed(pieces) == [0x7F, 0, 0, 1, 0x65, 0x88, 0, 0, 0, 1, 0x41];
  }

  lemma PayloadPieces(pieces: seq<Piece>)
    requires pieces == [Piece(true, [0x65, 0x88]), Piece(false, [0x41])]
    ensures JoinMixed(pieces) == [0, 0, 1, 0x65, 0x88, 0, 0, 0, 1, 0x41]
    ensures Trimmed(pieces) == [[0x65, 0x88], [0x41]]
  {
    assert pieces[1..] == [Piece(false, [0x41])] && pieces[1..][1..] == [];
    assert JoinMixed(pieces[1..]) == [0, 0, 0, 1, 0x41];
    assert Trimmed(pieces[1..]) == [[0x41]];
  }
}
