/**
 Every name of every message, regular or not: whatever names and other octets come before it and
 whatever comes after, NameExact's condition decides whether it is read back in the end.
 */
module NameEvery {
  import opened Bytes
  import opened NameWalk
  import opened NameMake
  import opened NameTrip
  import opened NameExact
  import opened NameRun

  /** A message whose walks from the ring all end before what is written next. */
  ghost predicate Walkable(s: Message, known: set<nat>) {
    && s.pos <= |s.buf| <= 0x4000 && s.table.Valid()
    && Closed(s.buf, known, s.pos) && Remembers(s.table, known)
  }

  predicate ShortPiece(p: Piece) {
    p.NamePiece? ==> Short(LabelsOf(p.name))
  }

  lemma StaysClosed(b: bytes, known: set<nat>, pos: nat, b2: bytes, pos2: nat)
    requires Closed(b, known, pos) && SameBefore(b, b2, pos) && pos <= pos2 <= |b2|
    ensures Closed(b2, known, pos2)
  {}

  lemma ClosedIsUnfinished(b: bytes, known: set<nat>, pos: nat)
    requires Closed(b, known, pos)
    ensures Unfinished(b, known, pos)
  {}

  lemma PrefixSame(b: bytes, b2: bytes, pos: nat)
    requires pos <= |b| == |b2| && b2[..pos] == b[..pos]
    ensures SameBefore(b, b2, pos)
  {
    forall k | 0 <= k < pos ensures b2[k] == b[k] {
      assert b2[..pos][k] == b[..pos][k];
    }
  }

  /** Nothing written before changes. */
  lemma AppendBefore(s: Message, p: Piece)
    requires s.pos <= |s.buf| && s.table.Valid() && Append(s, p).Some?
    ensures var s2 := Append(s, p).value; SameBefore(s.buf, s2.buf, s.pos) && s.pos <= s2.pos
  {
    hide MakeName, Splice;
    match p
    case RawPiece(x) =>
    case NamePiece(name) =>
      MakeNameFrame(s.buf, s.pos, LabelsOf(name), Some(s.table));
      PrefixSame(s.buf, Append(s, p).value.buf, s.pos);
  }

  lemma {:induction false} AppendAllBefore(s: Message, pieces: seq<Piece>)
    requires s.pos <= |s.buf| && s.table.Valid() && AppendAll(s, pieces).Some?
    ensures SameBefore(s.buf, AppendAll(s, pieces).value.buf, s.pos)
    decreases |pieces|
  {
    hide Append;
    if pieces != [] {
      AppendBefore(s, pieces[0]);
      AppendAllBefore(Append(s, pieces[0]).value, pieces[1..]);
    }
  }

  lemma AppendWalkable(s: Message, known: set<nat>, p: Piece) returns (known2: set<nat>)
    requires s.pos <= |s.buf| && s.table.Valid() && Walkable(s, known) && ShortPiece(p) && Append(s, p).Some?
    ensures Walkable(Append(s, p).value, known2)
    ensures p.NamePiece? ==>
      var s2 := Append(s, p).value; s2.pos <= |s2.buf| && Leads(s2.buf, known2, s.pos, s2.pos)
  {
    hide Closed, Unfinished, Leads, Remembers, Short, MakeName, Splice;
    AppendBefore(s, p);
    match p
    case RawPiece(x) =>
      known2 := known;
      StaysClosed(s.buf, known, s.pos, Append(s, p).value.buf, Append(s, p).value.pos);
    case NamePiece(name) =>
      ClosedIsUnfinished(s.buf, known, s.pos);
      known2 := MakeClosed(s.buf, known, s.pos, s.table, LabelsOf(name));
  }

  lemma {:induction false} AppendAllWalkable(s: Message, known: set<nat>, pieces: seq<Piece>) returns (known2: set<nat>)
    requires s.pos <= |s.buf| && s.table.Valid() && Walkable(s, known) && AppendAll(s, pieces).Some?
    requires forall i :: 0 <= i < |pieces| ==> ShortPiece(pieces[i])
    ensures Walkable(AppendAll(s, pieces).value, known2)
    decreases |pieces|
  {
    hide Append, Walkable, ShortPiece;
    known2 := known;
    if pieces != [] {
      var known1 := AppendWalkable(s, known, pieces[0]);
      known2 := AppendAllWalkable(Append(s, pieces[0]).value, known1, pieces[1..]);
    }
  }

  /** Appending stops nowhere in between. */
  lemma {:induction false} AppendAllParts(s: Message, before: seq<Piece>, p: Piece, after: seq<Piece>)
    requires s.pos <= |s.buf| && s.table.Valid() && AppendAll(s, before + [p] + after).Some?
    ensures AppendAll(s, before).Some?
    ensures var s1 := AppendAll(s, before).value;
      && s1.pos <= |s1.buf| && s1.table.Valid() && Append(s1, p).Some?
      && AppendAll(Append(s1, p).value, after) == AppendAll(s, before + [p] + after)
    decreases |before|
  {
    hide Append;
    var all := before + [p] + after;
    if before == [] {
      assert all[0] == p && all[1..] == after;
    } else {
      assert all[0] == before[0] && all[1..] == before[1..] + [p] + after;
      AppendAllParts(Append(s, before[0]).value, before[1..], p, after);
    }
  }

  /**
   The exact round trip over whole messages, from an empty ring: after any names with labels under 192
   octets, faithfully written or not, and any other octets, a name is read back from the finished
   message with the end its writing returned if and only if its labels have lengths from 1 to 191,
   there are at most 64 of them, and the reference picked when it was written is sound.
   */
  lemma {:induction false} EveryNameExactly(b: bytes, pos: nat, t: Table, before: seq<Piece>, name: NonEmpty, after: seq<Piece>)
    requires pos <= |b| <= 0x4000 && Fresh(t)
    requires forall i :: 0 <= i < |before| ==> ShortPiece(before[i])
    requires AppendAll(Message(b, pos, t, []), before + [NamePiece(name)] + after).Some?
    ensures AppendAll(Message(b, pos, t, []), before).Some?
    ensures
      var s := AppendAll(Message(b, pos, t, []), before).value;
      && s.pos <= |s.buf| && s.table.Valid() && Append(s, NamePiece(name)).Some?
      && var written := Append(s, NamePiece(name)).value;
         var final := AppendAll(Message(b, pos, t, []), before + [NamePiece(name)] + after).value;
         NameAt(final.buf, s.pos) == Some(Decoded(LabelsOf(name), written.pos))
         <==>
         && TextName(LabelsOf(name)) && |LabelsOf(name)| <= 64
         && SoundRefs(s.buf, s.pos, LabelsOf(name), s.table, s.pos)
  {
    hide *;
    var s0, p, labels := Message(b, pos, t, []), NamePiece(name), LabelsOf(name);
    StartWalkable(b, pos, t);
    AppendAllParts(s0, before, p, after);
    var s := AppendAll(s0, before).value;
    var known := AppendAllWalkable(s0, {}, before);
    var written, final := Append(s, p).value, AppendAll(s0, before + [p] + after).value;
    AppendAllBefore(written, after);
    NameWrittenExactly(s, known, name, final.buf);
  }

  lemma StartWalkable(b: bytes, pos: nat, t: Table)
    requires pos <= |b| <= 0x4000 && Fresh(t)
    ensures t.Valid() && Walkable(Message(b, pos, t, []), {})
  {}

  lemma NameWrittenExactly(s: Message, known: set<nat>, name: NonEmpty, b2: bytes)
    requires s.pos <= |s.buf| && s.table.Valid() && Walkable(s, known) && Append(s, NamePiece(name)).Some?
    requires var s2 := Append(s, NamePiece(name)).value; SameBefore(s2.buf, b2, s2.pos)
    ensures
      NameAt(b2, s.pos) == Some(Decoded(LabelsOf(name), Append(s, NamePiece(name)).value.pos))
      <==>
      && TextName(LabelsOf(name)) && |LabelsOf(name)| <= 64
      && SoundRefs(s.buf, s.pos, LabelsOf(name), s.table, s.pos)
  {
    hide Decode, SoundRefs, MakeName, Closed, Leads, Remembers;
    var labels := LabelsOf(name);
    hide LabelsOf;
    if NameAt(b2, s.pos).Some? { DecodedText(b2, s.pos, MAX_SUBSTRINGS); }
    if TextName(labels) {
      RoundTripExactly(s.buf, known, s.pos, s.table, labels);
      var known2 := AppendWalkable(s, known, NamePiece(name));
      var s2 := Append(s, NamePiece(name)).value;
      DecodeFrame(s2.buf, known2, s.pos, s2.pos, b2, MAX_SUBSTRINGS);
    }
  }
}
