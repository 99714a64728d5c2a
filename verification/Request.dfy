/** Type-length-value requests: the writer of conn_serv.c and the reader of file_server.c. */
module Request {
  import opened Bytes
  import opened Sequences

  type Octets = s: seq<Byte> | |s| == 8 witness [0, 0, 0, 0, 0, 0, 0, 0]

  /** A request field: type 1 is the eight-octet call identifier, types 2 to 4 are words. */
  datatype Field = CallId(octets: Octets) | Case(value: Word) | Time(value: Word) | Type(value: Word)

  function Kind(f: Field): Word {
    match f case CallId(_) => 1 case Case(_) => 2 case Time(_) => 3 case Type(_) => 4
  }

  function Data(f: Field): (data: seq<Byte>)
    ensures 2 <= |data| <= 8
  {
    if f.CallId? then f.octets else [High(f.value), Low(f.value)]
  }

  function Tlv(kind: Word, data: seq<Byte>): seq<Byte>
    requires |data| < 0x1_0000
  {
    [High(kind), Low(kind), High(|data|), Low(|data|)] + data
  }

  function Encode(fields: seq<Field>): seq<Byte> {
    if fields == [] then [] else Tlv(Kind(fields[0]), Data(fields[0])) + Encode(fields[1..])
  }

  // ---------- the reader ----------

  /** What the walk has found so far; every field starts out missing. */
  datatype Found = Found(callid: Option<seq<Byte>>, scase: Option<Word>, stime: Option<Word>, stype: Option<Word>)

  const NOTHING := Found(None, None, None, None)

  predicate Complete(f: Found) { f.callid.Some? && f.scase.Some? && f.stime.Some? && f.stype.Some? }

  /** Memory from the start of the buffer on; the reader may look past the message and past the buffer. */
  type Memory = nat -> Byte

  /** A buffer, and whatever follows it. */
  function Seen(buffer: seq<Byte>, outside: Memory): Memory {
    (i: nat) => if i < |buffer| then buffer[i] else outside(i)
  }

  function WordAt(mem: Memory, pos: nat): Word { ToWord(mem(pos), mem(pos + 1)) }

  function EightAt(mem: Memory, pos: nat): Octets {
    [mem(pos), mem(pos + 1), mem(pos + 2), mem(pos + 3), mem(pos + 4), mem(pos + 5), mem(pos + 6), mem(pos + 7)]
  }

  /** One field's effect; None for an unknown type. The value is read whatever length the field states. */
  function Note(found: Found, mem: Memory, pos: nat): Option<Found> {
    var kind := WordAt(mem, pos);
    if kind == 1 then Some(found.(callid := Some(EightAt(mem, pos + 4))))
    else if kind == 2 then Some(found.(scase := Some(WordAt(mem, pos + 4))))
    else if kind == 3 then Some(found.(stime := Some(WordAt(mem, pos + 4))))
    else if kind == 4 then Some(found.(stype := Some(WordAt(mem, pos + 4))))
    else None
  }

  /** The walk over the fields. */
  function Walk(mem: Memory, pos: nat, left: int, found: Found): Option<Found>
    decreases left
  {
    if left <= 4 then Some(found) else
    var next := Note(found, mem, pos);
    var step := WordAt(mem, pos + 2) + 4;
    if next.None? then None else Walk(mem, pos + step, left - step, next.value)
  }

  function Parse(mem: Memory, len: int): Option<Found> {
    if len <= 4 || WordAt(mem, 0) != 1 || WordAt(mem, 2) != len - 4 then None else
    var r := Walk(mem, 4, len - 4, NOTHING);
    if r.Some? && Complete(r.value) then r else None
  }

  function OctetOf(buf: array<Byte>, outside: Memory, i: nat): Byte
    reads buf
  {
    if i < buf.Length then buf[i] else outside(i)
  }

  function WordOfBuffer(buf: array<Byte>, outside: Memory, i: nat): Word
    reads buf
  {
    ToWord(OctetOf(buf, outside, i), OctetOf(buf, outside, i + 1))
  }

  function EightOfBuffer(buf: array<Byte>, outside: Memory, i: nat): Octets
    reads buf
  {
    [OctetOf(buf, outside, i), OctetOf(buf, outside, i + 1), OctetOf(buf, outside, i + 2), OctetOf(buf, outside, i + 3),
     OctetOf(buf, outside, i + 4), OctetOf(buf, outside, i + 5), OctetOf(buf, outside, i + 6), OctetOf(buf, outside, i + 7)]
  }

  lemma BufferIsSeen(buf: array<Byte>, outside: Memory, i: nat)
    ensures WordOfBuffer(buf, outside, i) == WordAt(Seen(buf[..], outside), i)
    ensures EightOfBuffer(buf, outside, i) == EightAt(Seen(buf[..], outside), i)
  {
  }

  lemma WalkStep(mem: Memory, pos: nat, left: int, found: Found)
    ensures
      var next, step := Note(found, mem, pos), WordAt(mem, pos + 2) + 4;
      Walk(mem, pos, left, found) ==
        if left <= 4 then Some(found) else if next.None? then None else Walk(mem, pos + step, left - step, next.value)
  {
  }

  /** The switch over a field's type. */
  method NoteOne(buf: array<Byte>, outside: Memory, data: nat, before: Found) returns (known: bool, found: Found)
    ensures Note(before, Seen(buf[..], outside), data) == if known then Some(found) else None
  {
    BufferIsSeen(buf, outside, data);
    BufferIsSeen(buf, outside, data + 4);
    hide Seen, WordOfBuffer, EightOfBuffer, WordAt, EightAt;
    known, found := true, before;
    var dataType := WordOfBuffer(buf, outside, data);
    if dataType == 1 {
      found := found.(callid := Some(EightOfBuffer(buf, outside, data + 4)));
    } else if dataType == 2 {
      found := found.(scase := Some(WordOfBuffer(buf, outside, data + 4)));
    } else if dataType == 3 {
      found := found.(stime := Some(WordOfBuffer(buf, outside, data + 4)));
    } else if dataType == 4 {
      found := found.(stype := Some(WordOfBuffer(buf, outside, data + 4)));
    } else {
      known := false;
    }
  }

  /** The loop over the fields. */
  method WalkFields(buf: array<Byte>, outside: Memory, ghost mem: Memory, len: nat) returns (known: bool, found: Found)
    requires mem == Seen(buf[..], outside) && len > 4
    ensures Walk(mem, 4, len - 4, NOTHING) == if known then Some(found) else None
  {
    hide Seen, WordOfBuffer, WordAt, Note, Walk;
    known, found := true, NOTHING;
    var data: nat := 4;
    var dataLeft := len - 4;
    while dataLeft > 4
      invariant Walk(mem, 4, len - 4, NOTHING) == Walk(mem, data, dataLeft, found)
      decreases dataLeft
    {
      WalkStep(mem, data, dataLeft, found);
      BufferIsSeen(buf, outside, data + 2);
      var dataLen := WordOfBuffer(buf, outside, data + 2);
      known, found := NoteOne(buf, outside, data, found);
      if !known {
        return;
      }
      data := data + dataLen + 4;
      dataLeft := dataLeft - dataLen - 4;
    }
    WalkStep(mem, data, dataLeft, found);
  }

  /** cmd_parser. */
  method CmdParser(buf: array<Byte>, len: int, outside: Memory) returns (result: int, found: Found)
    ensures result == 0 || result == -1
    ensures result == 0 <==> Parse(Seen(buf[..], outside), len).Some?
    ensures result == 0 ==> Parse(Seen(buf[..], outside), len) == Some(found)
  {
    found := NOTHING;
    if len <= 4 {
      return -1, found;
    }
    BufferIsSeen(buf, outside, 0);
    BufferIsSeen(buf, outside, 2);
    hide Seen, WordOfBuffer, WordAt, Note, Walk;
    var cmdType := WordOfBuffer(buf, outside, 0);
    var cmdLen := WordOfBuffer(buf, outside, 2);
    if cmdType != 1 || cmdLen != len - 4 {
      return -1, found;
    }
    var known;
    known, found := WalkFields(buf, outside, Seen(buf[..], outside), len);
    if !known || found.callid.None? || found.scase.None? || found.stime.None? || found.stype.None? {
      return -1, found;
    }
    return 0, found;
  }

  // ---------- the writer ----------

  /** vpu_fill_info at an offset of the caller's packet; the returned length is 16 bits wide. */
  method FillInfo(pkt: array<Byte>, off: nat, data: seq<Byte>, kind: Word) returns (n: Word)
    requires |data| < 0x1_0000 && off + 4 + |data| <= pkt.Length
    modifies pkt
    ensures pkt[..] == old(pkt[..off]) + Tlv(kind, data) + old(pkt[off + 4 + |data|..])
    ensures n == (|data| + 4) % 0x1_0000
  {
    pkt[off], pkt[off + 1] := High(kind), Low(kind);
    pkt[off + 2], pkt[off + 3] := High(|data|), Low(|data|);
    forall i | 0 <= i < |data| {
      pkt[off + 4 + i] := data[i];
    }
    n := (|data| + 4) % 0x1_0000;
  }

  lemma {:induction false} EncodeAppend(xs: seq<Field>, ys: seq<Field>)
    ensures Encode(xs + ys) == Encode(xs) + Encode(ys)
  {
    hide Tlv, Data;
    if xs == [] {
      assert xs + ys == ys;
    } else {
      EncodeAppend(xs[1..], ys);
      assert (xs + ys)[1..] == xs[1..] + ys && (xs + ys)[0] == xs[0];
      var head := Tlv(Kind(xs[0]), Data(xs[0]));
      assert head + (Encode(xs[1..]) + Encode(ys)) == head + Encode(xs[1..]) + Encode(ys);
    }
  }

  /** `old` with `done` written behind its first four octets. */
  ghost predicate Written(now: seq<Byte>, before: seq<Byte>, done: seq<Byte>) {
    4 + |done| <= |before| && now == before[..4] + done + before[4 + |done|..]
  }

  lemma WriteNext(now: seq<Byte>, next: seq<Byte>, before: seq<Byte>, done: seq<Byte>, more: seq<Byte>)
    requires Written(now, before, done) && 4 + |done| + |more| <= |before|
    requires next == now[..4 + |done|] + more + now[4 + |done| + |more|..]
    ensures Written(next, before, done + more)
  {
  }

  lemma EncodeOne(f: Field)
    ensures Encode([f]) == Tlv(Kind(f), Data(f))
  {
    assert [f][1..] == [];
  }

  lemma EncodeNext(fields: seq<Field>, i: nat)
    requires i < |fields|
    ensures Encode(fields[..i + 1]) == Encode(fields[..i]) + Tlv(Kind(fields[i]), Data(fields[i]))
    ensures Encode(fields) == Encode(fields[..i + 1]) + Encode(fields[i + 1..])
  {
    hide *;
    var front, f := fields[..i], fields[i];
    EncodeOne(f);
    EncodeAppend(front, [f]);
    SplitAt(fields, i);
    EncodeAppend(fields[..i + 1], fields[i + 1..]);
  }

  lemma SplitAt<T>(xs: seq<T>, i: nat)
    requires i < |xs|
    ensures xs[..i + 1] == xs[..i] + [xs[i]] && xs == xs[..i + 1] + xs[i + 1..]
  {
  }

  /** A request built the way the registration packets are: fields at running offsets, then the outer header. */
  method WriteRequest(pkt: array<Byte>, fields: seq<Field>) returns (n: nat)
    requires |Encode(fields)| < 0x1_0000 && 4 + |Encode(fields)| <= pkt.Length
    modifies pkt
    ensures n == 4 + |Encode(fields)|
    ensures pkt[..] == Tlv(1, Encode(fields)) + old(pkt[n..])
  {
    hide Tlv, Data;
    var payload: Word := 0;
    var i := 0;
    assert fields[..0] == [];
    while i < |fields|
      invariant 0 <= i <= |fields|
      invariant payload == |Encode(fields[..i])| <= |Encode(fields)|
      invariant Written(pkt[..], old(pkt[..]), Encode(fields[..i]))
    {
      EncodeNext(fields, i);
      var f := fields[i];
      ghost var now := pkt[..];
      assert |Tlv(Kind(f), Data(f))| == 4 + |Data(f)| && |Data(f)| <= 8 by { TlvLength(f); }
      var m := FillInfo(pkt, 4 + payload, Data(f), Kind(f));
      WriteNext(now, pkt[..], old(pkt[..]), Encode(fields[..i]), Tlv(Kind(f), Data(f)));
      payload := payload + m;
      i := i + 1;
    }
    assert fields[..i] == fields;
    WriteHeader(pkt, payload);
    n := 4 + payload;
    assert pkt[..] == Tlv(1, Encode(fields)) + old(pkt[n..]) by {
      HeaderCompletes(pkt[..], old(pkt[..]), Encode(fields));
    }
  }

  lemma TlvLength(f: Field)
    ensures |Data(f)| <= 8 && |Tlv(Kind(f), Data(f))| == 4 + |Data(f)|
  {
  }

  method WriteHeader(pkt: array<Byte>, payload: Word)
    requires pkt.Length >= 4
    modifies pkt
    ensures pkt[..] == [High(1), Low(1), High(payload), Low(payload)] + old(pkt[4..])
  {
    pkt[0], pkt[1] := High(1), Low(1);
    pkt[2], pkt[3] := High(payload), Low(payload);
  }

  lemma HeaderCompletes(now: seq<Byte>, before: seq<Byte>, done: seq<Byte>)
    requires 4 + |done| <= |before| && |done| < 0x1_0000
    requires now == [High(1), Low(1), High(|done|), Low(|done|)] + (before[..4] + done + before[4 + |done|..])[4..]
    ensures now == Tlv(1, done) + before[4 + |done|..]
  {
    assert (before[..4] + done + before[4 + |done|..])[4..] == done + before[4 + |done|..];
  }

  // ---------- round trip ----------

  function NoteField(found: Found, f: Field): Found {
    match f
    case CallId(octets) => found.(callid := Some(octets))
    case Case(value) => found.(scase := Some(value))
    case Time(value) => found.(stime := Some(value))
    case Type(value) => found.(stype := Some(value))
  }

  function NoteAll(found: Found, fields: seq<Field>): Found
    decreases |fields|
  {
    if fields == [] then found else NoteAll(NoteField(found, fields[0]), fields[1..])
  }

  /** The last field of a kind. */
  function Last(fields: seq<Field>, kind: Word): Option<Field> {
    if fields == [] then None
    else if Kind(fields[|fields| - 1]) == kind then Some(fields[|fields| - 1])
    else Last(fields[..|fields| - 1], kind)
  }

  /** What a request means: the last value of each type. */
  function Meaning(fields: seq<Field>): Found {
    Found(var c := Last(fields, 1); if c.Some? && c.value.CallId? then Some(c.value.octets) else None,
          WordOf(Last(fields, 2)), WordOf(Last(fields, 3)), WordOf(Last(fields, 4)))
  }

  function WordOf(f: Option<Field>): Option<Word> {
    if f.Some? && !f.value.CallId? then Some(f.value.value) else None
  }

  lemma {:induction false} LastHasKind(fields: seq<Field>, kind: Word)
    ensures Last(fields, kind).Some? ==> Kind(Last(fields, kind).value) == kind && Last(fields, kind).value in fields
    ensures Last(fields, kind).None? <==> forall f :: f in fields ==> Kind(f) != kind
  {
    if fields != [] {
      LastHasKind(fields[..|fields| - 1], kind);
      assert fields == fields[..|fields| - 1] + [fields[|fields| - 1]];
    }
  }

  lemma {:induction false} NoteAllSnoc(found: Found, fields: seq<Field>, f: Field)
    ensures NoteAll(found, fields + [f]) == NoteField(NoteAll(found, fields), f)
    decreases |fields|
  {
    if fields == [] {
      assert ([] + [f])[1..] == [];
    } else {
      assert (fields + [f])[1..] == fields[1..] + [f];
      NoteAllSnoc(NoteField(found, fields[0]), fields[1..], f);
    }
  }

  lemma {:induction false} NoteAllIsMeaning(fields: seq<Field>)
    ensures NoteAll(NOTHING, fields) == Meaning(fields)
  {
    if fields != [] {
      var front, f := fields[..|fields| - 1], fields[|fields| - 1];
      NoteAllIsMeaning(front);
      NoteAllSnoc(NOTHING, front, f);
      assert fields == front + [f];
    }
  }

  /** The octets from `pos` on are these. */
  ghost predicate Holds(mem: Memory, pos: nat, octets: seq<Byte>) {
    forall k :: 0 <= k < |octets| ==> mem(pos + k) == octets[k]
  }

  lemma HoldsParts(mem: Memory, pos: nat, first: seq<Byte>, rest: seq<Byte>)
    requires Holds(mem, pos, first + rest)
    ensures Holds(mem, pos, first) && Holds(mem, pos + |first|, rest)
  {
    forall k | 0 <= k < |first| ensures mem(pos + k) == first[k] {
      assert (first + rest)[k] == first[k];
    }
    forall k | 0 <= k < |rest| ensures mem(pos + |first| + k) == rest[k] {
      assert (first + rest)[|first| + k] == rest[k] && mem(pos + (|first| + k)) == (first + rest)[|first| + k];
    }
  }

  lemma HeldWord(mem: Memory, pos: nat, octets: seq<Byte>, k: nat)
    requires Holds(mem, pos, octets) && k + 2 <= |octets|
    ensures WordAt(mem, pos + k) == ToWord(octets[k], octets[k + 1])
  {
    assert mem(pos + (k + 1)) == octets[k + 1];
  }

  lemma TlvParts(mem: Memory, pos: nat, kind: Word, data: seq<Byte>)
    requires |data| < 0x1_0000 && Holds(mem, pos, Tlv(kind, data))
    ensures WordAt(mem, pos) == kind && WordAt(mem, pos + 2) == |data| && Holds(mem, pos + 4, data)
  {
    var t := Tlv(kind, data);
    HeldWord(mem, pos, t, 0);
    HeldWord(mem, pos, t, 2);
    HoldsParts(mem, pos, [High(kind), Low(kind), High(|data|), Low(|data|)], data);
  }

  /** One encoded field is noted as what it was, and states its length. */
  lemma NoteEncoded(mem: Memory, pos: nat, f: Field, found: Found)
    requires Holds(mem, pos, Tlv(Kind(f), Data(f)))
    ensures Note(found, mem, pos) == Some(NoteField(found, f))
    ensures WordAt(mem, pos + 2) == |Data(f)|
  {
    TlvParts(mem, pos, Kind(f), Data(f));
    hide WordAt, EightAt, Holds, Data;
    if f.CallId? {
      HeldEight(mem, pos + 4, f);
    } else {
      HeldValue(mem, pos + 4, f);
    }
  }

  lemma HeldEight(mem: Memory, pos: nat, f: Field)
    requires f.CallId? && Holds(mem, pos, Data(f))
    ensures EightAt(mem, pos) == f.octets
  {
  }

  lemma HeldValue(mem: Memory, pos: nat, f: Field)
    requires !f.CallId? && Holds(mem, pos, Data(f))
    ensures WordAt(mem, pos) == f.value
  {
    HeldWord(mem, pos, Data(f), 0);
  }

  /** Encoded fields at the head of what is left are noted one by one, and the walk goes on behind them. */
  lemma {:induction false} WalkEncoded(mem: Memory, pos: nat, fields: seq<Field>, more: nat, found: Found)
    requires Holds(mem, pos, Encode(fields))
    ensures Walk(mem, pos, |Encode(fields)| + more, found) ==
            Walk(mem, pos + |Encode(fields)|, more, NoteAll(found, fields))
    decreases |fields|
  {
    hide Tlv, Data, Note, NoteField, WordAt, Holds;
    if fields != [] {
      var f, rest := fields[0], fields[1..];
      TlvLength(f);
      HoldsParts(mem, pos, Tlv(Kind(f), Data(f)), Encode(rest));
      NoteEncoded(mem, pos, f, found);
      WalkStep(mem, pos, |Encode(fields)| + more, found);
      WalkEncoded(mem, pos + 4 + |Data(f)|, rest, more, NoteField(found, f));
    }
  }

  predicate Covers(fields: seq<Field>) { forall k: Word :: 1 <= k <= 4 ==> HasKind(fields, k) }

  predicate HasKind(fields: seq<Field>, k: Word) { exists f :: f in fields && Kind(f) == k }

  lemma CompleteWhenCovered(fields: seq<Field>)
    ensures Complete(Meaning(fields)) <==> Covers(fields)
  {
    forall k: Word | 1 <= k <= 4 ensures Last(fields, k).Some? <==> HasKind(fields, k) {
      LastHasKind(fields, k);
    }
    hide HasKind, Last;
    LastHasKind(fields, 1);
    LastHasKind(fields, 2);
    LastHasKind(fields, 3);
    LastHasKind(fields, 4);
  }

  /**
   Any list of fields, in any order and with any repeats, reads back as the last value of each type when
   all four types occur, and is rejected when one is missing, whatever memory holds behind the message.
   */
  lemma RequestRoundTrip(fields: seq<Field>, mem: Memory)
    requires |Encode(fields)| < 0x1_0000 && Holds(mem, 0, Tlv(1, Encode(fields)))
    ensures Parse(mem, |Tlv(1, Encode(fields))|) == if Covers(fields) then Some(Meaning(fields)) else None
  {
    hide *;
    var payload := Encode(fields);
    TlvParts(mem, 0, 1, payload);
    MessageLength(payload);
    ParseByHeader(mem, 4 + |payload|);
    WalkEncoded(mem, 4, fields, 0, NOTHING);
    WalkStep(mem, 4 + |payload|, 0, NoteAll(NOTHING, fields));
    NoteAllIsMeaning(fields);
    CompleteWhenCovered(fields);
    if payload == [] {
      EmptyIsUncovered(fields);
    }
  }

  lemma MessageLength(payload: seq<Byte>)
    requires |payload| < 0x1_0000
    ensures |Tlv(1, payload)| == 4 + |payload|
  {
  }

  lemma ParseByHeader(mem: Memory, len: int)
    requires 4 <= len && WordAt(mem, 0) == 1 && WordAt(mem, 2) == len - 4
    ensures
      var r := Walk(mem, 4, len - 4, NOTHING);
      Parse(mem, len) == if len > 4 && r.Some? && Complete(r.value) then r else None
  {
    hide WordAt, Walk, Complete;
  }

  lemma EmptyIsUncovered(fields: seq<Field>)
    requires Encode(fields) == []
    ensures !Covers(fields)
  {
    assert fields == [];
    assert !HasKind(fields, 1);
  }

  // ---------- what is refused ----------

  /** A message is parsed only with type 1 and its true length in the first four octets, high octets first. */
  lemma HeaderIsChecked(mem: Memory, len: int)
    requires Parse(mem, len).Some?
    ensures len > 4 && mem(0) == 0 && mem(1) == 1 && mem(2) as int * 256 + mem(3) == len - 4
  {
  }

  /** The octets of each field: type, length, value, high octets first. */
  lemma FieldOctets(octets: Octets, v: Word)
    ensures Encode([CallId(octets)]) == [0, 1, 0, 8] + octets
    ensures Encode([Case(v)]) == [0, 2, 0, 2, v / 256, v % 256]
    ensures Encode([Time(v)]) == [0, 3, 0, 2, v / 256, v % 256]
    ensures Encode([Type(v)]) == [0, 4, 0, 2, v / 256, v % 256]
  {
    EncodeOne(CallId(octets));
    EncodeOne(Case(v));
    EncodeOne(Time(v));
    EncodeOne(Type(v));
  }

  /** A field of any other type makes the whole message refused, unless it is an empty one at the very end. */
  lemma UnknownTypeIsRefused(fields: seq<Field>, kind: Word, data: seq<Byte>, rest: seq<Byte>, mem: Memory)
    requires !(1 <= kind <= 4) && |data| < 0x1_0000 && |data| + |rest| > 0
    requires |Encode(fields) + Tlv(kind, data) + rest| < 0x1_0000
    requires Holds(mem, 0, Tlv(1, Encode(fields) + Tlv(kind, data) + rest))
    ensures Parse(mem, |Tlv(1, Encode(fields) + Tlv(kind, data) + rest)|) == None
  {
    hide *;
    var front, field := Encode(fields), Tlv(kind, data);
    var payload := front + field + rest;
    FieldLength(kind, data);
    MessageLength(payload);
    TlvParts(mem, 0, 1, payload);
    assert payload == front + (field + rest);
    HoldsParts(mem, 4, front, field + rest);
    HoldsParts(mem, 4 + |front|, field, rest);
    WalkEncoded(mem, 4, fields, |field| + |rest|, NOTHING);
    WalkMeetsUnknown(mem, 4 + |front|, kind, data, |field| + |rest|, NoteAll(NOTHING, fields));
    ParseByHeader(mem, 4 + |payload|);
  }

  lemma WalkMeetsUnknown(mem: Memory, pos: nat, kind: Word, data: seq<Byte>, left: nat, found: Found)
    requires !(1 <= kind <= 4) && |data| < 0x1_0000 && left > 4 && Holds(mem, pos, Tlv(kind, data))
    ensures Walk(mem, pos, left, found) == None
  {
    TlvParts(mem, pos, kind, data);
    hide WordAt, Holds;
    WalkStep(mem, pos, left, found);
  }

  lemma FieldLength(kind: Word, data: seq<Byte>)
    requires |data| < 0x1_0000
    ensures |Tlv(kind, data)| == 4 + |data|
  {
  }
}
