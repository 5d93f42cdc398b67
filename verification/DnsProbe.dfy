/**
 The response check of the DNS probe.

 `validate` walks a response with two loops: `skip` steps over one name and the outer
 loop over the counted answers.  The wire format (sections 4.1.1 to 4.1.4 of RFC 1035)
 is defined independently as an encoding of messages, and the check is proved to
 accept exactly the encodings of the messages it should.
 */
module DnsProbe {

  import opened Wrappers

  type Byte = b: int | 0 <= b < 0x100
  type U16 = n: int | 0 <= n < 0x1_0000
  type U32 = n: int | 0 <= n < 0x1_0000_0000
  type Label = l: seq<Byte> | 1 <= |l| <= 63 witness [0]
  type Data = d: seq<Byte> | |d| < 0x1_0000

  type Address = a: seq<Byte> | |a| == 4 witness [0, 0, 0, 0]

  /** The 14 bits of a compression pointer. */
  type Offset = n: int | 0 <= n < 0x4000

  const MAX_STEPS := 128

  datatype End = Root | Pointer(offset: Offset)
  datatype Name = Name(labels: seq<Label>, end: End)
  datatype Record = Record(name: Name, kind: U16, cls: U16, ttl: U32, rdata: Data)
  datatype Question = Question(name: Name, kind: U16, cls: U16)
  /** The fields of the second header word (section 4.1.1 of RFC 1035). */
  type Nibble = n: int | 0 <= n < 0x10
  type Zeros = n: int | 0 <= n < 8
  datatype Flags = Flags(
    qr: bool, opcode: Nibble, aa: bool, tc: bool, rd: bool, ra: bool, z: Zeros, rcode: Nibble)

  datatype Message = Message(
    id: U16, flags: Flags, question: Question, answers: seq<Record>,
    authority: U16, additional: U16, rest: seq<Byte>)

  // ---------------------------------------------------------------- the wire format

  function Put16(n: U16): seq<Byte> {
    [n / 0x100, n % 0x100]
  }

  function Put32(n: U32): seq<Byte> {
    Put16(n / 0x1_0000) + Put16(n % 0x1_0000)
  }

  function Bit(on: bool): int {
    if on then 1 else 0
  }

  /** Each field at its bits, QR in the highest one. */
  function FlagsWord(f: Flags): U16 {
    Bit(f.qr) * 0x8000 + f.opcode * 0x800 + Bit(f.aa) * 0x400 + Bit(f.tc) * 0x200
    + Bit(f.rd) * 0x100 + Bit(f.ra) * 0x80 + f.z * 0x10 + f.rcode
  }

  function EncodeEnd(e: End): seq<Byte> {
    match e
    case Root => [0]
    case Pointer(offset) => [0xc0 + offset / 0x100, offset % 0x100]
  }

  function EncodeName(n: Name): (wire: seq<Byte>)
    ensures |wire| > 2 * |n.labels|
    decreases |n.labels|
  {
    if n.labels == [] then EncodeEnd(n.end)
    else [|n.labels[0]|] + n.labels[0] + EncodeName(n.(labels := n.labels[1..]))
  }

  function EncodeFixed(kind: U16, cls: U16, ttl: U32, n: U16): seq<Byte> {
    Put16(kind) + Put16(cls) + Put32(ttl) + Put16(n)
  }

  function EncodeRecord(r: Record): seq<Byte> {
    EncodeName(r.name) + EncodeFixed(r.kind, r.cls, r.ttl, |r.rdata|) + r.rdata
  }

  function EncodeRecords(rs: seq<Record>): seq<Byte> {
    if rs == [] then [] else EncodeRecord(rs[0]) + EncodeRecords(rs[1..])
  }

  function EncodeHeader(id: U16, flags: Flags, qd: U16, an: U16, ns: U16, ar: U16): seq<Byte> {
    Put16(id) + Put16(FlagsWord(flags)) + Put16(qd) + Put16(an) + Put16(ns) + Put16(ar)
  }

  /** A message with one question; what follows the answers is `rest`. */
  function Encode(m: Message): seq<Byte>
    requires |m.answers| < 0x1_0000
  {
    EncodeHeader(m.id, m.flags, 1, |m.answers|, m.authority, m.additional)
    + EncodeName(m.question.name) + (Put16(m.question.kind) + Put16(m.question.cls))
    + EncodeRecords(m.answers) + m.rest
  }

  // ---------------------------------------------------------------- what is accepted

  /** A response, not truncated, without an error code; every other field is free. */
  predicate Answers(f: Flags) {
    f.qr && !f.tc && f.rcode == 0
  }

  predicate IsAddress(r: Record, address: seq<Byte>) {
    r.kind == 1 && r.cls == 1 && r.rdata == address
  }

  predicate HasAddress(rs: seq<Record>, address: seq<Byte>) {
    exists r :: r in rs && IsAddress(r, address)
  }

  /** One length octet for each of at most 127 labels, and one for the end. */
  predicate Short(n: Name) {
    |n.labels| <= 127
  }

  predicate Walkable(rs: seq<Record>) {
    forall r :: r in rs ==> Short(r.name)
  }

  /** A response to query `id` whose names the probe can step over. */
  ghost predicate Responds(m: Message, id: U16) {
    && m.id == id && Answers(m.flags) && 1 <= |m.answers| < 0x1_0000
    && Short(m.question.name) && Walkable(m.answers)
  }

  ghost predicate Reads(data: seq<Byte>, m: Message, id: U16) {
    Responds(m, id) && data == Encode(m)
  }

  // ---------------------------------------------------------------- pieces of a buffer

  ghost predicate At(data: seq<Byte>, pos: int, piece: seq<Byte>) {
    0 <= pos && pos + |piece| <= |data| && data[pos..pos + |piece|] == piece
  }

  lemma AtJoin(data: seq<Byte>, pos: int, a: seq<Byte>, b: seq<Byte>)
    ensures At(data, pos, a + b) <==> At(data, pos, a) && At(data, pos + |a|, b)
  {
    var n := |a|;
    if At(data, pos, a + b) {
      var whole := data[pos..pos + |a + b|];
      assert data[pos..pos + n] == whole[..n] == a;
      assert data[pos + n..pos + n + |b|] == whole[n..] == b;
    }
    if At(data, pos, a) && At(data, pos + n, b) {
      assert data[pos..pos + |a + b|] == data[pos..pos + n] + data[pos + n..pos + n + |b|];
    }
  }

  function Get16(data: seq<Byte>, pos: nat): U16
    requires pos + 2 <= |data|
  {
    (data[pos] as int) * 0x100 + data[pos + 1] as int
  }

  function Get32(data: seq<Byte>, pos: nat): U32
    requires pos + 4 <= |data|
  {
    (Get16(data, pos) as int) * 0x1_0000 + Get16(data, pos + 2) as int
  }

  lemma At16(data: seq<Byte>, pos: nat, n: U16)
    ensures At(data, pos, Put16(n)) <==> pos + 2 <= |data| && Get16(data, pos) == n
  {
    if pos + 2 <= |data| {
      assert data[pos..pos + 2] == [data[pos], data[pos + 1]];
      assert Put16(Get16(data, pos)) == [data[pos], data[pos + 1]];
      assert n == n / 0x100 * 0x100 + n % 0x100;
    }
  }

  lemma At32(data: seq<Byte>, pos: nat, n: U32)
    ensures At(data, pos, Put32(n)) <==> pos + 4 <= |data| && Get32(data, pos) == n
  {
    AtJoin(data, pos, Put16(n / 0x1_0000), Put16(n % 0x1_0000));
    At16(data, pos, n / 0x1_0000);
    At16(data, pos + 2, n % 0x1_0000);
  }

  lemma AtFixed(data: seq<Byte>, pos: nat, kind: U16, cls: U16, ttl: U32, n: U16)
    ensures At(data, pos, EncodeFixed(kind, cls, ttl, n)) <==>
            && pos + 10 <= |data| && Get16(data, pos) == kind && Get16(data, pos + 2) == cls
            && Get32(data, pos + 4) == ttl && Get16(data, pos + 8) == n
  {
    var a, b, c, d := Put16(kind), Put16(cls), Put32(ttl), Put16(n);
    AtJoin(data, pos, a + b + c, d);
    AtJoin(data, pos, a + b, c);
    AtJoin(data, pos, a, b);
    At16(data, pos, kind);
    At16(data, pos + 2, cls);
    At32(data, pos + 4, ttl);
    At16(data, pos + 8, n);
  }

  // ---------------------------------------------------------------- stepping over a name

  /** Where the name at `pos` ends, in at most `steps` steps. */
  function NameEnd(data: seq<Byte>, pos: nat, steps: nat): (end: Option<nat>)
    ensures end.Some? ==> pos < end.value <= |data|
    decreases steps
  {
    if steps == 0 || pos >= |data| then None
    else
      var size := data[pos];
      if size >= 0xc0 then if pos + 1 < |data| then Some(pos + 2) else None
      else if size >= 0x40 then None
      else if size == 0 then Some(pos + 1)
      else NameEnd(data, pos + 1 + size, steps - 1)
  }

  lemma EndAt(data: seq<Byte>, pos: nat, n: Name)
    requires n.labels == []
    ensures At(data, pos, EncodeName(n)) <==>
            && pos + |EncodeName(n)| <= |data|
            && data[pos] == EncodeEnd(n.end)[0]
            && (n.end.Pointer? ==> data[pos + 1] == EncodeEnd(n.end)[1])
  {
    var wire := EncodeEnd(n.end);
    assert EncodeName(n) == wire;
    if pos + |wire| <= |data| {
      var piece := data[pos..pos + |wire|];
      assert piece[0] == data[pos];
      assert |wire| == 2 ==> piece[1] == data[pos + 1];
    }
  }

  lemma ByteAt(data: seq<Byte>, pos: nat, b: Byte)
    ensures At(data, pos, [b]) <==> pos < |data| && data[pos] == b
  {
    if pos < |data| {
      assert data[pos..pos + 1] == [data[pos]];
    }
  }

  lemma NameWithLabel(text: Label, tail: Name)
    ensures EncodeName(Name([text] + tail.labels, tail.end)) == [|text|] + text + EncodeName(tail)
  {
    var n := Name([text] + tail.labels, tail.end);
    assert n.labels[1..] == tail.labels;
    assert n.(labels := n.labels[1..]) == tail;
  }

  lemma LabelAt(data: seq<Byte>, pos: nat, text: Label, tail: Name)
    ensures |EncodeName(Name([text] + tail.labels, tail.end))| == 1 + |text| + |EncodeName(tail)|
    ensures At(data, pos, EncodeName(Name([text] + tail.labels, tail.end))) <==>
            && pos < |data| && data[pos] == |text|
            && At(data, pos + 1, text)
            && At(data, pos + 1 + |text|, EncodeName(tail))
  {
    hide At, EncodeName;
    NameWithLabel(text, tail);
    AtJoin(data, pos, [|text|] + text, EncodeName(tail));
    AtJoin(data, pos, [|text|], text);
    ByteAt(data, pos, |text|);
  }

  lemma {:induction false} NameIsRead(data: seq<Byte>, pos: nat, steps: nat) returns (n: Name)
    requires NameEnd(data, pos, steps).Some?
    ensures |n.labels| < steps
    ensures At(data, pos, EncodeName(n)) && pos + |EncodeName(n)| == NameEnd(data, pos, steps).value
    decreases steps
  {
    hide At;
    var size := data[pos];
    if size >= 0xc0 {
      n := Name([], Pointer((size as int - 0xc0) * 0x100 + data[pos + 1] as int));
      EndAt(data, pos, n);
    } else if size == 0 {
      n := Name([], Root);
      EndAt(data, pos, n);
    } else {
      var next := pos + 1 + size;
      var tail := NameIsRead(data, next, steps - 1);
      var text: Label := data[pos + 1..next];
      n := Name([text] + tail.labels, tail.end);
      SliceAt(data, pos + 1, next);
      LabelAt(data, pos, text, tail);
    }
  }

  lemma SliceAt(data: seq<Byte>, lo: nat, hi: nat)
    requires lo <= hi <= |data|
    ensures At(data, lo, data[lo..hi])
  {}

  lemma {:induction false} NameIsSteppedOver(data: seq<Byte>, pos: nat, steps: nat, n: Name)
    requires At(data, pos, EncodeName(n)) && |n.labels| < steps
    ensures NameEnd(data, pos, steps) == Some(pos + |EncodeName(n)|)
    decreases steps
  {
    hide At;
    if n.labels == [] {
      EndAt(data, pos, n);
    } else {
      var text, tail := n.labels[0], n.(labels := n.labels[1..]);
      assert n == Name([text] + tail.labels, tail.end);
      LabelAt(data, pos, text, tail);
      assert pos + 1 + |text| <= |data| by { AtFits(data, pos + 1, text); }
      NameIsSteppedOver(data, pos + 1 + |text|, steps - 1, tail);
    }
  }

  lemma AtFits(data: seq<Byte>, pos: int, piece: seq<Byte>)
    requires At(data, pos, piece)
    ensures pos + |piece| <= |data|
  {}

  datatype NameError = TruncatedName | TruncatedPointer | InvalidLabel | NameTooLong

  /** `skip`: the loop over at most 128 length octets. */
  method Skip(data: seq<Byte>, start: nat) returns (r: Result<nat, NameError>)
    ensures r.Success? <==> exists n: Name :: Short(n) && At(data, start, EncodeName(n))
    ensures forall n: Name :: Short(n) && At(data, start, EncodeName(n)) ==> r == Success(start + |EncodeName(n)|)
    ensures NameEnd(data, start, MAX_STEPS) == if r.Success? then Some(r.value) else None
  {
    SkipMeans(data, start);
    hide At, EncodeName, Short;
    var pos := start;
    for i := 0 to MAX_STEPS
      invariant 0 <= i <= MAX_STEPS && 0 <= pos
      invariant NameEnd(data, start, MAX_STEPS) == NameEnd(data, pos, MAX_STEPS - i)
    {
      if pos >= |data| { return Failure(TruncatedName); }
      var size := data[pos];
      pos := pos + 1;
      if size >= 0xc0 {
        if pos >= |data| { return Failure(TruncatedPointer); }
        return Success(pos + 1);
      }
      if size >= 0x40 { return Failure(InvalidLabel); }
      if size == 0 { return Success(pos); }
      pos := pos + size;
    }
    return Failure(NameTooLong);
  }

  lemma SkipMeans(data: seq<Byte>, pos: nat)
    ensures NameEnd(data, pos, MAX_STEPS).Some? <==> exists n: Name :: Short(n) && At(data, pos, EncodeName(n))
    ensures forall n: Name :: Short(n) && At(data, pos, EncodeName(n)) ==>
              NameEnd(data, pos, MAX_STEPS) == Some(pos + |EncodeName(n)|)
  {
    if NameEnd(data, pos, MAX_STEPS).Some? {
      var n := NameIsRead(data, pos, MAX_STEPS);
      assert Short(n);
    }
    forall n: Name | Short(n) && At(data, pos, EncodeName(n))
      ensures NameEnd(data, pos, MAX_STEPS) == Some(pos + |EncodeName(n)|)
    {
      NameIsSteppedOver(data, pos, MAX_STEPS, n);
    }
  }

  /** 128 steps are enough for every name of at most 255 octets (section 2.3.4 of RFC 1035). */
  lemma LegalNamesAreShort(n: Name)
    requires |EncodeName(n)| <= 255
    ensures Short(n)
  {}

  // ---------------------------------------------------------------- stepping over the answers

  /** Where the record at `pos` ends. */
  function RecordEnd(data: seq<Byte>, pos: nat): (end: Option<nat>)
    ensures end.Some? ==> pos < end.value <= |data|
  {
    var name := NameEnd(data, pos, MAX_STEPS);
    if name.None? || name.value + 10 > |data| then None
    else
      var end := name.value + 10 + Get16(data, name.value + 8);
      if end > |data| then None else Some(end)
  }

  /** Whether the record at `pos` is an IN A record with the address. */
  predicate Hits(data: seq<Byte>, pos: nat, address: seq<Byte>)
    requires RecordEnd(data, pos).Some?
  {
    var fixed := NameEnd(data, pos, MAX_STEPS).value;
    && Get16(data, fixed) == 1 && Get16(data, fixed + 2) == 1
    && data[fixed + 10..RecordEnd(data, pos).value] == address
  }

  function Walk(data: seq<Byte>, pos: nat, count: nat, found: bool, address: seq<Byte>): Option<bool>
    decreases count
  {
    if count == 0 then Some(found)
    else if RecordEnd(data, pos).None? then None
    else Walk(data, RecordEnd(data, pos).value, count - 1, found || Hits(data, pos, address), address)
  }

  lemma RecordAt(data: seq<Byte>, pos: nat, r: Record)
    ensures At(data, pos, EncodeRecord(r)) <==>
            && At(data, pos, EncodeName(r.name))
            && At(data, pos + |EncodeName(r.name)|, EncodeFixed(r.kind, r.cls, r.ttl, |r.rdata|))
            && At(data, pos + |EncodeName(r.name)| + 10, r.rdata)
  {
    hide At, EncodeName;
    var name, fixed := EncodeName(r.name), EncodeFixed(r.kind, r.cls, r.ttl, |r.rdata|);
    AtJoin(data, pos, name + fixed, r.rdata);
    AtJoin(data, pos, name, fixed);
  }

  lemma RecordIsRead(data: seq<Byte>, pos: nat, address: seq<Byte>) returns (r: Record)
    requires RecordEnd(data, pos).Some?
    ensures Short(r.name) && At(data, pos, EncodeRecord(r))
    ensures pos + |EncodeRecord(r)| == RecordEnd(data, pos).value
    ensures IsAddress(r, address) <==> Hits(data, pos, address)
  {
    hide At, EncodeName, Get16, Get32;
    var name := NameIsRead(data, pos, MAX_STEPS);
    var fixed := pos + |EncodeName(name)|;
    var end := RecordEnd(data, pos).value;
    var rdata: Data := data[fixed + 10..end];
    r := Record(name, Get16(data, fixed), Get16(data, fixed + 2), Get32(data, fixed + 4), rdata);
    AtFixed(data, fixed, r.kind, r.cls, r.ttl, |rdata|);
    SliceAt(data, fixed + 10, end);
    RecordAt(data, pos, r);
  }

  lemma RecordIsSteppedOver(data: seq<Byte>, pos: nat, r: Record, address: seq<Byte>)
    requires At(data, pos, EncodeRecord(r)) && Short(r.name)
    ensures RecordEnd(data, pos) == Some(pos + |EncodeRecord(r)|)
    ensures IsAddress(r, address) <==> Hits(data, pos, address)
  {
    hide EncodeName, Get16, Get32;
    RecordAt(data, pos, r);
    NameIsSteppedOver(data, pos, MAX_STEPS, r.name);
    AtFixed(data, pos + |EncodeName(r.name)|, r.kind, r.cls, r.ttl, |r.rdata|);
    AtFits(data, pos, EncodeRecord(r));
  }

  lemma HasAddressInFirst(r: Record, rs: seq<Record>, address: seq<Byte>)
    ensures HasAddress([r] + rs, address) <==> IsAddress(r, address) || HasAddress(rs, address)
  {
    assert IsAddress(r, address) ==> r in [r] + rs;
  }

  lemma {:induction false} AnswersAreRead(data: seq<Byte>, pos: nat, count: nat, found: bool, address: seq<Byte>)
    returns (rs: seq<Record>)
    requires Walk(data, pos, count, found, address).Some? && (count > 0 || pos <= |data|)
    ensures |rs| == count && Walkable(rs) && At(data, pos, EncodeRecords(rs))
    ensures Walk(data, pos, count, found, address).value <==> found || HasAddress(rs, address)
    decreases count
  {
    if count == 0 {
      rs := [];
    } else {
      hide At, EncodeRecord, Hits, IsAddress;
      var r := RecordIsRead(data, pos, address);
      var next := RecordEnd(data, pos).value;
      var tail := AnswersAreRead(data, next, count - 1, found || Hits(data, pos, address), address);
      rs := [r] + tail;
      assert rs[1..] == tail;
      AtJoin(data, pos, EncodeRecord(r), EncodeRecords(tail));
      HasAddressInFirst(r, tail, address);
    }
  }

  lemma {:induction false} AnswersAreSteppedOver(data: seq<Byte>, pos: nat, rs: seq<Record>, found: bool,
                                                 address: seq<Byte>)
    requires At(data, pos, EncodeRecords(rs)) && Walkable(rs)
    ensures Walk(data, pos, |rs|, found, address) == Some(found || HasAddress(rs, address))
    decreases |rs|
  {
    if rs != [] {
      var r, tail := rs[0], rs[1..];
      assert rs == [r] + tail;
      assert EncodeRecords(rs) == EncodeRecord(r) + EncodeRecords(tail);
      hide At, EncodeRecord, EncodeRecords, Hits, IsAddress, HasAddress, RecordEnd;
      AtJoin(data, pos, EncodeRecord(r), EncodeRecords(tail));
      RecordIsSteppedOver(data, pos, r, address);
      AnswersAreSteppedOver(data, RecordEnd(data, pos).value, tail, found || Hits(data, pos, address), address);
      HasAddressInFirst(r, tail, address);
    }
  }

  // ---------------------------------------------------------------- the whole response

  /** The masks of the check: bit 15 set, bit 9 and bits 0 to 3 clear. */
  predicate GoodFlags(flags: U16) {
    flags / 0x8000 % 2 == 1 && flags / 0x200 % 2 == 0 && flags % 0x10 == 0
  }

  predicate HeaderGood(data: seq<Byte>, id: U16) {
    && |data| >= 12 && Get16(data, 0) == id && GoodFlags(Get16(data, 2))
    && Get16(data, 4) == 1 && Get16(data, 6) >= 1
  }

  /** The fields from the lowest bits up. */
  function UnpackFlags(w: U16): Flags {
    var aboveRcode := w / 0x10;
    var aboveZ := aboveRcode / 8;
    var aboveRa := aboveZ / 2;
    var aboveRd := aboveRa / 2;
    var aboveTc := aboveRd / 2;
    var aboveAa := aboveTc / 2;
    Flags(aboveAa / 0x10 == 1, aboveAa % 0x10, aboveTc % 2 == 1, aboveRd % 2 == 1,
          aboveRa % 2 == 1, aboveZ % 2 == 1, aboveRcode % 8, w % 0x10)
  }

  /** Every word has such fields. */
  lemma WordRoundTrip(w: U16)
    ensures FlagsWord(UnpackFlags(w)) == w
  {
    var f := UnpackFlags(w);
    var aboveRcode := w / 0x10;
    var aboveZ := aboveRcode / 8;
    var aboveRa := aboveZ / 2;
    assert w == aboveRcode * 0x10 + f.rcode && aboveRcode == aboveZ * 8 + f.z;
    assert aboveZ == aboveRa * 2 + Bit(f.ra);
  }

  /** What the masks let through, read off the fields. */
  lemma MasksReadFields(w: U16, f: Flags)
    requires w == FlagsWord(f)
    ensures GoodFlags(w) <==> Answers(f)
  {
    var tail := Bit(f.rd) * 0x100 + Bit(f.ra) * 0x80 + f.z * 0x10 + f.rcode;
    var head := Bit(f.qr) * 0x40 + f.opcode * 4 + Bit(f.aa) * 2 + Bit(f.tc);
    assert w == head * 0x200 + tail && tail < 0x200;
    assert w / 0x200 == head;
    assert head % 2 == Bit(f.tc);
    assert w / 0x8000 == Bit(f.qr);
    assert w % 0x10 == f.rcode;
  }

  /** The header of a response to query `id` with one question and some answers. */
  ghost predicate HeaderResponds(data: seq<Byte>, id: U16) {
    exists f: Flags, an: U16, ns: U16, ar: U16 ::
      Answers(f) && an >= 1 && At(data, 0, EncodeHeader(id, f, 1, an, ns, ar))
  }

  lemma HeaderGoodMeans(data: seq<Byte>, id: U16)
    ensures HeaderGood(data, id) <==> HeaderResponds(data, id)
  {
    hide At, EncodeHeader, FlagsWord, GoodFlags, Answers, UnpackFlags, Get16;
    if HeaderGood(data, id) {
      var f := UnpackFlags(Get16(data, 2));
      WordRoundTrip(Get16(data, 2));
      MasksReadFields(Get16(data, 2), f);
      HeaderAt(data, id, f, 1, Get16(data, 6), Get16(data, 8), Get16(data, 10));
    }
    if HeaderResponds(data, id) {
      var f: Flags, an: U16, ns: U16, ar: U16 :|
        Answers(f) && an >= 1 && At(data, 0, EncodeHeader(id, f, 1, an, ns, ar));
      HeaderAt(data, id, f, 1, an, ns, ar);
      MasksReadFields(Get16(data, 2), f);
    }
  }

  /** What the walk makes of the buffer: whether the address was among the answers, or
      nothing when the buffer is not such a response. */
  function Verdict(data: seq<Byte>, id: U16, address: seq<Byte>): Option<bool> {
    if !HeaderGood(data, id) then None
    else
      var name := NameEnd(data, 12, MAX_STEPS);
      if name.None? then None else Walk(data, name.value + 4, Get16(data, 6), false, address)
  }

  lemma HeaderAt(data: seq<Byte>, id: U16, flags: Flags, qd: U16, an: U16, ns: U16, ar: U16)
    ensures At(data, 0, EncodeHeader(id, flags, qd, an, ns, ar)) <==>
            && |data| >= 12 && Get16(data, 0) == id && Get16(data, 2) == FlagsWord(flags) && Get16(data, 4) == qd
            && Get16(data, 6) == an && Get16(data, 8) == ns && Get16(data, 10) == ar
  {
    hide FlagsWord;
    var a, b, c, d, e, f := Put16(id), Put16(FlagsWord(flags)), Put16(qd), Put16(an), Put16(ns), Put16(ar);
    AtJoin(data, 0, a + b + c + d + e, f);
    AtJoin(data, 0, a + b + c + d, e);
    AtJoin(data, 0, a + b + c, d);
    AtJoin(data, 0, a + b, c);
    AtJoin(data, 0, a, b);
    At16(data, 0, id);
    At16(data, 2, FlagsWord(flags));
    At16(data, 4, qd);
    At16(data, 6, an);
    At16(data, 8, ns);
    At16(data, 10, ar);
  }

  lemma QuestionAt(data: seq<Byte>, pos: nat, q: Question)
    ensures At(data, pos, Put16(q.kind) + Put16(q.cls)) <==>
            pos + 4 <= |data| && Get16(data, pos) == q.kind && Get16(data, pos + 2) == q.cls
  {
    AtJoin(data, pos, Put16(q.kind), Put16(q.cls));
    At16(data, pos, q.kind);
    At16(data, pos + 2, q.cls);
  }

  lemma WholeAt(data: seq<Byte>, wire: seq<Byte>)
    ensures data == wire <==> At(data, 0, wire) && |data| == |wire|
  {}

  lemma MessageAt(data: seq<Byte>, m: Message)
    requires |m.answers| < 0x1_0000
    ensures data == Encode(m) <==>
            var q := 12 + |EncodeName(m.question.name)|;
            var first := q + 4;
            && At(data, 0, EncodeHeader(m.id, m.flags, 1, |m.answers|, m.authority, m.additional))
            && At(data, 12, EncodeName(m.question.name))
            && At(data, q, Put16(m.question.kind) + Put16(m.question.cls))
            && At(data, first, EncodeRecords(m.answers))
            && At(data, first + |EncodeRecords(m.answers)|, m.rest)
            && |data| == first + |EncodeRecords(m.answers)| + |m.rest|
  {
    var h := EncodeHeader(m.id, m.flags, 1, |m.answers|, m.authority, m.additional);
    var n, rs := EncodeName(m.question.name), EncodeRecords(m.answers);
    var q := Put16(m.question.kind) + Put16(m.question.cls);
    MessagePieces(m);
    hide At, EncodeName, EncodeRecords, EncodeHeader, Put16, Encode, Joins;
    FiveAt(data, Encode(m), h, n, q, rs, m.rest);
  }

  lemma MessagePieces(m: Message)
    requires |m.answers| < 0x1_0000
    ensures Joins(Encode(m), EncodeHeader(m.id, m.flags, 1, |m.answers|, m.authority, m.additional),
                  EncodeName(m.question.name), Put16(m.question.kind) + Put16(m.question.cls),
                  EncodeRecords(m.answers), m.rest)
    ensures |EncodeHeader(m.id, m.flags, 1, |m.answers|, m.authority, m.additional)| == 12
    ensures |Put16(m.question.kind) + Put16(m.question.cls)| == 4
  {}

  ghost predicate Joins(wire: seq<Byte>, a: seq<Byte>, b: seq<Byte>, c: seq<Byte>, d: seq<Byte>, e: seq<Byte>) {
    wire == a + b + c + d + e
  }

  lemma FiveAt(data: seq<Byte>, wire: seq<Byte>, a: seq<Byte>, b: seq<Byte>, c: seq<Byte>, d: seq<Byte>, e: seq<Byte>)
    requires Joins(wire, a, b, c, d, e)
    ensures data == wire <==>
            && At(data, 0, a) && At(data, |a|, b) && At(data, |a| + |b|, c)
            && At(data, |a| + |b| + |c|, d) && At(data, |a| + |b| + |c| + |d|, e)
            && |data| == |a| + |b| + |c| + |d| + |e|
  {
    hide At;
    WholeAt(data, wire);
    AtJoin(data, 0, a + b + c + d, e);
    AtJoin(data, 0, a + b + c, d);
    AtJoin(data, 0, a + b, c);
    AtJoin(data, 0, a, b);
  }

  lemma VerdictOfMessage(data: seq<Byte>, m: Message, id: U16, address: seq<Byte>)
    requires Reads(data, m, id)
    ensures Verdict(data, id, address) == Some(HasAddress(m.answers, address))
  {
    hide At, EncodeName, EncodeRecords, EncodeHeader, Encode, GoodFlags, Answers, FlagsWord, HasAddress;
    MessageAt(data, m);
    HeaderAt(data, m.id, m.flags, 1, |m.answers|, m.authority, m.additional);
    MasksReadFields(Get16(data, 2), m.flags);
    NameIsSteppedOver(data, 12, MAX_STEPS, m.question.name);
    AnswersAreSteppedOver(data, 12 + |EncodeName(m.question.name)| + 4, m.answers, false, address);
  }

  lemma MessageOfVerdict(data: seq<Byte>, id: U16, address: seq<Byte>) returns (m: Message)
    requires Verdict(data, id, address).Some?
    ensures Reads(data, m, id)
  {
    hide At, EncodeName, EncodeRecords, EncodeHeader, Encode, GoodFlags, Answers, FlagsWord, HasAddress;
    var name := NameIsRead(data, 12, MAX_STEPS);
    var q := 12 + |EncodeName(name)|;
    var answers := AnswersAreRead(data, q + 4, Get16(data, 6), false, address);
    var end := q + 4 + |EncodeRecords(answers)|;
    AtFits(data, q + 4, EncodeRecords(answers));
    var flags := UnpackFlags(Get16(data, 2));
    WordRoundTrip(Get16(data, 2));
    MasksReadFields(Get16(data, 2), flags);
    m := Message(id, flags, Question(name, Get16(data, q), Get16(data, q + 2)), answers,
                 Get16(data, 8), Get16(data, 10), data[end..]);
    HeaderAt(data, m.id, m.flags, 1, |answers|, m.authority, m.additional);
    QuestionAt(data, q, m.question);
    SliceAt(data, end, |data|);
    assert data[end..] == data[end..|data|];
    MessageAt(data, m);
  }

  datatype DnsError =
    | ShortHeader
    | BadStatus
    | BadName(name: NameError)
    | TruncatedRecord
    | TruncatedData
    | AddressMissing

  /** `validate`. */
  method Validate(data: seq<Byte>, id: U16, address: Address) returns (error: Option<DnsError>)
    ensures error.None? <==> exists m: Message :: Reads(data, m, id) && HasAddress(m.answers, address)
    ensures error == Some(AddressMissing) <==>
              exists m: Message :: Reads(data, m, id) && !HasAddress(m.answers, address)
    ensures error == Some(ShortHeader) <==> |data| < 12
    ensures error == Some(BadStatus) <==> |data| >= 12 && !HeaderResponds(data, id)
  {
    HeaderGoodMeans(data, id);
    VerdictMeans(data, id, address);
    hide Reads, HasAddress, At, GoodFlags, HeaderResponds, Get16;
    if |data| < 12 { return Some(ShortHeader); }
    var count := Get16(data, 6);
    if Get16(data, 0) != id || !GoodFlags(Get16(data, 2)) || Get16(data, 4) != 1 || count < 1 {
      return Some(BadStatus);
    }
    var skipped := Skip(data, 12);
    if skipped.Failure? { return Some(BadName(skipped.error)); }
    var pos := skipped.value + 4;
    var found := false;
    for i := 0 to count
      invariant 0 <= i <= count && 0 <= pos
      invariant Verdict(data, id, address) == Walk(data, pos, count - i, found, address)
    {
      var answer := ReadAnswer(data, pos, address);
      if answer.Failure? { return Some(answer.error); }
      found := found || answer.value.1;
      pos := answer.value.0;
    }
    if !found { return Some(AddressMissing); }
    return None;
  }

  /** One round of the loop: where the answer ends and whether it is the expected one. */
  method ReadAnswer(data: seq<Byte>, start: nat, address: Address) returns (r: Result<(nat, bool), DnsError>)
    ensures r.Success? <==> RecordEnd(data, start).Some?
    ensures r.Success? ==> r.value == (RecordEnd(data, start).value, Hits(data, start, address))
    ensures r.Failure? ==> r.error.BadName? || r.error.TruncatedRecord? || r.error.TruncatedData?
  {
    hide Get16, At, EncodeName;
    var skipped := Skip(data, start);
    if skipped.Failure? { return Failure(BadName(skipped.error)); }
    var pos := skipped.value;
    if pos + 10 > |data| { return Failure(TruncatedRecord); }
    var kind, cls, n := Get16(data, pos), Get16(data, pos + 2), Get16(data, pos + 8);
    pos := pos + 10;
    if pos + n > |data| { return Failure(TruncatedData); }
    return Success((pos + n, kind == 1 && cls == 1 && n == 4 && data[pos..pos + n] == address));
  }

  lemma VerdictMeans(data: seq<Byte>, id: U16, address: seq<Byte>)
    ensures Verdict(data, id, address) == Some(true) <==>
              exists m: Message :: Reads(data, m, id) && HasAddress(m.answers, address)
    ensures Verdict(data, id, address) == Some(false) <==>
              exists m: Message :: Reads(data, m, id) && !HasAddress(m.answers, address)
  {
    hide Reads, HasAddress, At, Verdict;
    if Verdict(data, id, address).Some? {
      var m := MessageOfVerdict(data, id, address);
      VerdictOfMessage(data, m, id, address);
    }
    forall m: Message | Reads(data, m, id) ensures Verdict(data, id, address) == Some(HasAddress(m.answers, address)) {
      VerdictOfMessage(data, m, id, address);
    }
  }

  /** No name of the message exceeds the 255 octets of section 2.3.4 of RFC 1035. */
  predicate LegalNames(m: Message) {
    |EncodeName(m.question.name)| <= 255 && forall r :: r in m.answers ==> |EncodeName(r.name)| <= 255
  }

  /** Every matching response with legal names is read to its end and judged by its
      answers: the bound on steps turns none of them away. */
  lemma LegalResponsesAreRead(m: Message, id: U16, address: seq<Byte>)
    requires m.id == id && Answers(m.flags) && 1 <= |m.answers| < 0x1_0000 && LegalNames(m)
    ensures Reads(Encode(m), m, id)
    ensures Verdict(Encode(m), id, address) == Some(HasAddress(m.answers, address))
  {
    hide Encode, Answers, HasAddress, Verdict;
    LegalNamesAreShort(m.question.name);
    forall r | r in m.answers ensures Short(r.name) {
      LegalNamesAreShort(r.name);
    }
    VerdictOfMessage(Encode(m), m, id, address);
  }

  // ---------------------------------------------------------------- the query

  function JoinLabels(labels: seq<Label>): seq<Byte> {
    if labels == [] then [] else [|labels[0]|] + labels[0] + JoinLabels(labels[1..])
  }

  /** A standard query with recursion desired, the word 0x0100. */
  const QUERY_FLAGS := Flags(false, 0, false, false, true, false, 0, 0)

  /** The query that `probe` sends for the labels of the host name. */
  function Query(id: U16, host: seq<Label>): seq<Byte> {
    EncodeHeader(id, QUERY_FLAGS, 1, 0, 0, 0) + JoinLabels(host) + [0, 0, 1, 0, 1]
  }

  /** Length of the host name as text, with its dots. */
  function TextLength(host: seq<Label>): nat {
    if host == [] then 0
    else if |host| == 1 then |host[0]|
    else |host[0]| + 1 + TextLength(host[1..])
  }

  lemma {:induction false} JoinedIsEncoded(host: seq<Label>)
    ensures EncodeName(Name(host, Root)) == JoinLabels(host) + [0]
    ensures host != [] ==> |JoinLabels(host)| == TextLength(host) + 1
  {
    if host != [] {
      JoinedIsEncoded(host[1..]);
      assert host == [host[0]] + host[1..];
      NameWithLabel(host[0], Name(host[1..], Root));
    }
  }

  lemma Regroup(h: seq<Byte>, joined: seq<Byte>)
    ensures h + joined + [0, 0, 1, 0, 1] == h + (joined + [0]) + [0, 1, 0, 1]
  {}

  lemma QueryBytes(id: U16, host: seq<Label>)
    requires host != []
    ensures Query(id, host) ==
              EncodeHeader(id, QUERY_FLAGS, 1, 0, 0, 0) + EncodeName(Name(host, Root)) + (Put16(1) + Put16(1))
    ensures Query(id, host)[2..4] == [1, 0]
    ensures |EncodeHeader(id, QUERY_FLAGS, 1, 0, 0, 0)| == 12 && |Put16(1) + Put16(1)| == 4
    ensures |EncodeName(Name(host, Root))| == TextLength(host) + 2
  {
    JoinedIsEncoded(host);
    assert Put16(1) + Put16(1) == [0, 1, 0, 1];
    var h := EncodeHeader(id, QUERY_FLAGS, 1, 0, 0, 0);
    assert h[2] == 1 && h[3] == 0 && Query(id, host)[2..4] == h[2..4];
    Regroup(EncodeHeader(id, QUERY_FLAGS, 1, 0, 0, 0), JoinLabels(host));
  }

  /** A configured host name (at most 253 characters) makes a legal name, and the reader
      of a response steps over the question of the query exactly. */
  lemma QueryIsOneQuestion(id: U16, host: seq<Label>)
    requires host != [] && TextLength(host) <= 253
    ensures |EncodeName(Name(host, Root))| <= 255
    ensures Query(id, host)[2..4] == [1, 0]
    ensures Query(id, host) ==
              EncodeHeader(id, QUERY_FLAGS, 1, 0, 0, 0) + EncodeName(Name(host, Root)) + (Put16(1) + Put16(1))
    ensures NameEnd(Query(id, host), 12, MAX_STEPS) == Some(|Query(id, host)| - 4)
  {
    hide At, EncodeName, EncodeHeader, JoinLabels, Put16, Query, TextLength;
    QueryBytes(id, host);
    var wire, h := Query(id, host), EncodeHeader(id, QUERY_FLAGS, 1, 0, 0, 0);
    var n, q := EncodeName(Name(host, Root)), Put16(1) + Put16(1);
    WholeAt(wire, h + n + q);
    AtJoin(wire, 0, h + n, q);
    AtJoin(wire, 0, h, n);
    LegalNamesAreShort(Name(host, Root));
    NameIsSteppedOver(wire, 12, MAX_STEPS, Name(host, Root));
  }

  /** A response that repeats the question and answers it through a pointer back to the
      question is among the accepted messages, authoritative or not. */
  lemma PlainAnswerIsAccepted(id: U16, host: seq<Label>, address: Address, ttl: U32, rest: seq<Byte>, f: Flags)
    requires host != [] && TextLength(host) <= 253 && f.qr && !f.tc && f.rcode == 0
    ensures var answer := Record(Name([], Pointer(12)), 1, 1, ttl, address);
            var m := Message(id, f, Question(Name(host, Root), 1, 1), [answer], 0, 0, rest);
            Reads(Encode(m), m, id) && HasAddress(m.answers, address)
  {
    QueryIsOneQuestion(id, host);
    LegalNamesAreShort(Name(host, Root));
    var answer := Record(Name([], Pointer(12)), 1, 1, ttl, address);
    assert answer in [answer] && IsAddress(answer, address);
  }
}
