/**
 * The NDEF message container (`nfc.ndef.Message`): an ordered list of
 * records with list-like editing and a serialiser that normalises the
 * Message Begin (MB) and Message End (ME) flags of the NFC Forum NDEF
 * Technical Specification, section 3.2.
 *
 * A record's byte layout belongs to the record class, which is not part of
 * this model; a serialised message is therefore the sequence of records the
 * serialiser writes, in order, and parsing reads such a sequence.
 */
module NdefMessage {
  import opened Wrappers
  import opened Bytes

  /** A record as far as the message sees it: its two flags, its type, name and payload. */
  datatype Record = Record(messageBegin: bool, messageEnd: bool, recordType: string, name: string, data: seq<byte>)

  /**
   * An argument handed to the message: a record, or an object that is neither a
   * record nor an iterable made only of records (iterables of records are not
   * modelled).
   */
  datatype Value = RecordValue(record: Record) | OtherValue

  datatype Message = Message(records: seq<Record>)

  datatype NdefError =
    | TypeError         // a non-record where a record is required
    | FormatError       // the first record read lacks the MB flag
    | IndexError        // a position outside the message
    | EndOfStream       // the stream ended before a record with ME was read

  /** The message after a mutating call, or the error raised with the message as the error left it. */
  datatype Update = Updated(msg: Message) | Raised(error: NdefError, msg: Message)

  /** The same record with both flags replaced. */
  function WithFlags(r: Record, mb: bool, me: bool): Record {
    r.(messageBegin := mb, messageEnd := me)
  }

  /** Two records that differ at most in their MB/ME flags. */
  predicate SameContent(a: Record, b: Record) {
    a.recordType == b.recordType && a.name == b.name && a.data == b.data
  }

  // ---------------------------------------------------------------------
  // Serialising and parsing
  // ---------------------------------------------------------------------

  /** The flag normalisation of `_write`: MB only on the first record, ME only on the last. */
  function Normalize(rs: seq<Record>): (out: seq<Record>)
    ensures |out| == |rs|
    ensures forall i :: 0 <= i < |out| ==> SameContent(out[i], rs[i])
    ensures forall i :: 0 <= i < |out| ==> (out[i].messageBegin <==> i == 0)
    ensures forall i :: 0 <= i < |out| ==> (out[i].messageEnd <==> i == |out| - 1)
  {
    seq(|rs|, i requires 0 <= i < |rs| => WithFlags(rs[i], i == 0, i == |rs| - 1))
  }

  /** A message serialised: the records written, and the message whose records `_write` has re-flagged in place. */
  datatype Written = Written(msg: Message, stream: seq<Record>)

  /** `_write` / `to_bytes`: re-flags the records and writes them in order; an empty message writes nothing. */
  function ToBytes(m: Message): (w: Written)
    ensures w.stream == w.msg.records
    ensures |m.records| == 0 <==> w.stream == []
    ensures w.msg.records == Normalize(m.records)
  {
    var normalized := Normalize(m.records);
    Written(Message(normalized), normalized)
  }

  /** Serialising twice gives what serialising once gave: the flags are already normal. */
  lemma WriteIdempotent(m: Message)
    ensures ToBytes(ToBytes(m).msg) == ToBytes(m)
  {}

  /** Records read up to and including the first one with ME set, and what remains of the stream. */
  function ReadUntilEnd(stream: seq<Record>): (r: Option<(seq<Record>, seq<Record>)>)
    ensures r.None? <==> forall i :: 0 <= i < |stream| ==> !stream[i].messageEnd
    ensures r.Some? ==>
      && |r.value.0| > 0
      && r.value.0 + r.value.1 == stream
      && r.value.0[|r.value.0| - 1].messageEnd
      && forall i :: 0 <= i < |r.value.0| - 1 ==> !r.value.0[i].messageEnd
  {
    if |stream| == 0 then None
    else if stream[0].messageEnd then Some(([stream[0]], stream[1..]))
    else
      match ReadUntilEnd(stream[1..])
      case None => None
      case Some(res) => Some(([stream[0]] + res.0, res.1))
  }

  /** `_read`: the first record must carry MB; records are read until one carries ME. */
  function Read(stream: seq<Record>): (r: Result<(Message, seq<Record>), NdefError>)
    ensures |stream| > 0 && !stream[0].messageBegin ==> r == Failure(FormatError)
    ensures r.Failure? && (|stream| == 0 || stream[0].messageBegin) ==> r.error == EndOfStream
    ensures r.Success? <==>
      |stream| > 0 && stream[0].messageBegin && exists i :: 0 <= i < |stream| && stream[i].messageEnd
    ensures r.Success? ==>
      && var (msg, rest) := r.value;
      && |msg.records| > 0
      && msg.records + rest == stream
      && msg.records[0].messageBegin
      && msg.records[|msg.records| - 1].messageEnd
      && forall i :: 0 <= i < |msg.records| - 1 ==> !msg.records[i].messageEnd
  {
    if |stream| == 0 then Failure(EndOfStream)
    else if !stream[0].messageBegin then Failure(FormatError)
    else
      match ReadUntilEnd(stream)
      case None => Failure(EndOfStream)
      case Some(res) => Success((Message(res.0), res.1))
  }

  /** Parsing what a non-empty message serialises to gives back the (re-flagged) message, whatever follows it. */
  lemma ReadWriteRoundTrip(m: Message, rest: seq<Record>)
    requires |m.records| > 0
    ensures Read(ToBytes(m).stream + rest) == Success((ToBytes(m).msg, rest))
  {
    var n := Normalize(m.records);
    var stream := n + rest;
    assert stream[0] == n[0];
    assert stream[|n| - 1].messageEnd;
    var res := ReadUntilEnd(stream).value;
    var k := |res.0|;
    assert forall j :: 0 <= j < |n| - 1 ==> !stream[j].messageEnd;
    assert forall j :: 0 <= j < k ==> res.0[j] == stream[j];
    assert stream[k - 1].messageEnd;
    assert k == |n|;
    assert res.0 == stream[..k] == n;
    assert res.1 == stream[k..] == rest;
  }

  // ---------------------------------------------------------------------
  // Construction
  // ---------------------------------------------------------------------

  /**
   * One positional argument of the constructor: a `bytearray` or `io.BytesIO`
   * holding message bytes, a single object, or a list/tuple of objects.
   */
  datatype Arg = StreamArg(stream: seq<Record>) | ObjectArg(value: Value) | ListArg(values: seq<Value>)

  /** `Message(*args)`: no argument, a parsed bytearray or stream, one record, a list of records, or several records. */
  function New(args: seq<Arg>): (r: Result<Message, NdefError>)
    ensures |args| == 0 ==> r == Success(Message([]))
    ensures |args| == 1 && args[0].ObjectArg? && args[0].value.OtherValue? ==> r == Failure(TypeError)
    ensures |args| == 1 && args[0].ObjectArg? && args[0].value.RecordValue? ==>
      r == Success(Message([args[0].value.record]))
    ensures |args| == 1 && args[0].ListArg? ==>
      && (r.Success? <==> forall i :: 0 <= i < |args[0].values| ==> args[0].values[i].RecordValue?)
      && (r.Failure? ==> r.error == TypeError)
      && (r.Success? ==>
            r.value.records == seq(|args[0].values|, i requires 0 <= i < |args[0].values| => args[0].values[i].record))
    ensures |args| == 1 && args[0].StreamArg? ==>
      && (Read(args[0].stream).Success? ==> r == Success(Read(args[0].stream).value.0))
      && (Read(args[0].stream).Failure? ==> r == Failure(Read(args[0].stream).error))
    ensures |args| > 1 && r.Failure? ==> r.error == TypeError
    ensures |args| > 1 ==> (r.Success? <==> forall i :: 0 <= i < |args| ==> args[i].ObjectArg? && args[i].value.RecordValue?)
    ensures |args| > 1 && r.Success? ==> r.value.records == seq(|args|, i requires 0 <= i < |args| => args[i].value.record)
  {
    if |args| == 0 then Success(Message([]))
    else if |args| == 1 then
      match args[0]
      case StreamArg(s) =>
        (match Read(s)
         case Success(res) => Success(res.0)
         case Failure(e) => Failure(e))
      case ObjectArg(v) =>
        (match Append(Message([]), v)
         case Updated(m) => Success(m)
         case Raised(e, _) => Failure(TypeError))
      case ListArg(vs) =>
        var r := Extend(Message([]), vs);
        var k := |r.msg.records|;
        assert r.Raised? ==> !vs[k].RecordValue?;
        assert r.Updated? ==> vs[..k] == vs;
        (match r
         case Updated(m) => Success(m)
         case Raised(e, _) => Failure(e))
    else
      var asValues := seq(|args|, i requires 0 <= i < |args| => if args[i].ObjectArg? then args[i].value else OtherValue);
      var r := Extend(Message([]), asValues);
      var k := |r.msg.records|;
      assert forall i :: 0 <= i < |args| ==>
        (asValues[i].RecordValue? <==> args[i].ObjectArg? && args[i].value.RecordValue?);
      assert r.Raised? ==> !asValues[k].RecordValue?;
      assert r.Updated? ==> asValues[..k] == asValues;
      match r
      case Updated(m) => Success(m)
      case Raised(e, _) => Failure(e)
  }

  // ---------------------------------------------------------------------
  // Editing
  // ---------------------------------------------------------------------

  /** `append`: adds a copy of the record at the end; a non-record raises and leaves the message unchanged. */
  function Append(m: Message, v: Value): (r: Update)
    ensures r.Raised? <==> v.OtherValue?
    ensures r.Raised? ==> r.error == TypeError && r.msg == m
    ensures r.Updated? ==>
      && |r.msg.records| == |m.records| + 1
      && r.msg.records[..|m.records|] == m.records
      && r.msg.records[|m.records|] == v.record
  {
    if v.OtherValue? then Raised(TypeError, m) else Updated(Message(m.records + [v.record]))
  }

  /** The records of values that are all records. */
  function RecordsOf(vs: seq<Value>): (rs: seq<Record>)
    requires forall i :: 0 <= i < |vs| ==> vs[i].RecordValue?
    ensures |rs| == |vs| && forall i :: 0 <= i < |vs| ==> rs[i] == vs[i].record
  {
    seq(|vs|, i requires 0 <= i < |vs| => vs[i].record)
  }

  /**
   * `extend`: appends the records in order; at the first non-record, at position k,
   * it raises with the first k records already appended.
   */
  function Extend(m: Message, vs: seq<Value>): (r: Update)
    ensures var k := |r.msg.records| - |m.records|;
      && 0 <= k <= |vs|
      && (forall i :: 0 <= i < k ==> vs[i].RecordValue?)
      && r.msg.records == m.records + RecordsOf(vs[..k])
      && (r.Updated? <==> k == |vs|)
      && (r.Raised? ==> r.error == TypeError && vs[k].OtherValue?)
    decreases |vs|
  {
    if |vs| == 0 then Updated(m)
    else
      match Append(m, vs[0])
      case Raised(e, s) => Raised(e, s)
      case Updated(s) =>
        var r := Extend(s, vs[1..]);
        var k := |r.msg.records| - |s.records|;
        assert vs[..k + 1] == [vs[0]] + vs[1..][..k];
        assert RecordsOf(vs[..k + 1]) == [vs[0].record] + RecordsOf(vs[1..][..k]);
        r
  }

  /** Python's position normalisation: negative positions count from the end. */
  function Position(n: nat, i: int): int {
    if i < 0 then i + n else i
  }

  predicate ValidPosition(n: nat, i: int) {
    -(n as int) <= i < n
  }

  /** `message[i]`. */
  function GetItem(m: Message, i: int): (r: Result<Record, NdefError>)
    ensures r.Success? <==> ValidPosition(|m.records|, i)
    ensures r.Success? ==> r.value == m.records[Position(|m.records|, i)]
    ensures r.Failure? ==> r.error == IndexError
  {
    if ValidPosition(|m.records|, i) then Success(m.records[Position(|m.records|, i)]) else Failure(IndexError)
  }

  /** `message[i] = value` for an integer position and a single value. */
  function SetItem(m: Message, i: int, v: Value): (r: Update)
    ensures v.OtherValue? ==> r == Raised(TypeError, m)
    ensures v.RecordValue? && !ValidPosition(|m.records|, i) ==> r == Raised(IndexError, m)
    ensures v.RecordValue? && ValidPosition(|m.records|, i) ==> r.Updated?
    ensures r.Updated? ==>
      && |r.msg.records| == |m.records|
      && GetItem(r.msg, i) == Success(v.record)
      && forall j :: 0 <= j < |m.records| && j != Position(|m.records|, i) ==> r.msg.records[j] == m.records[j]
  {
    if v.OtherValue? then Raised(TypeError, m)
    else if !ValidPosition(|m.records|, i) then Raised(IndexError, m)
    else Updated(Message(m.records[Position(|m.records|, i) := v.record]))
  }

  /** A popped record and the message without it. */
  datatype Popped = Popped(record: Record, msg: Message)

  /** `pop(i)` (default -1, the last record): removes and returns the record at i. */
  function Pop(m: Message, i: int := -1): (r: Result<Popped, NdefError>)
    ensures r.Success? <==> ValidPosition(|m.records|, i)
    ensures r.Failure? ==> r.error == IndexError
    ensures r.Success? ==>
      var p := Position(|m.records|, i);
      && |r.value.msg.records| == |m.records| - 1
      && r.value.record == m.records[p]
      && r.value.msg.records[..p] == m.records[..p]
      && r.value.msg.records[p..] == m.records[p + 1..]
  {
    if !ValidPosition(|m.records|, i) then Failure(IndexError)
    else
      var p := Position(|m.records|, i);
      Success(Popped(m.records[p], Message(m.records[..p] + m.records[p + 1..])))
  }

  /** `pop()` on an empty message raises; on a non-empty one it removes the last record. */
  lemma PopDefault(m: Message)
    ensures |m.records| == 0 ==> Pop(m) == Failure(IndexError)
    ensures |m.records| > 0 ==> Pop(m) == Success(Popped(m.records[|m.records| - 1], Message(m.records[..|m.records| - 1])))
  {
    if |m.records| > 0 {
      var n := |m.records|;
      assert m.records[..n - 1] + m.records[n..] == m.records[..n - 1];
    }
  }

  /** `insert(i, record)` as written: the position is ignored and the record is appended. */
  function InsertAsWritten(m: Message, i: int, v: Value): (r: Update)
    ensures r == Append(m, v)
  {
    if v.OtherValue? then Raised(TypeError, m) else Updated(Message(m.records + [v.record]))
  }

  /** The documented promise `insert(0, record)` puts the record at the front does not hold as written. */
  lemma InsertAsWrittenIgnoresPosition(a: Record, b: Record)
    requires a != b
    ensures InsertAsWritten(Message([a]), 0, RecordValue(b)).msg.records[0] != b
  {}

  /** Python `list.insert` clamps the position into [0, n]. */
  function InsertPosition(n: nat, i: int): (p: nat)
    ensures p <= n
  {
    if i < 0 then (if i + n < 0 then 0 else i + n) else if i > n then n else i
  }

  /** `insert(i, record)` as documented: the record goes before position i. */
  function Insert(m: Message, i: int, v: Value): (r: Update)
    ensures v.OtherValue? ==> r == Raised(TypeError, m)
    ensures v.RecordValue? ==> r.Updated?
    ensures r.Updated? ==>
      var p := InsertPosition(|m.records|, i);
      && |r.msg.records| == |m.records| + 1
      && r.msg.records[p] == v.record
      && r.msg.records[..p] == m.records[..p]
      && r.msg.records[p + 1..] == m.records[p..]
  {
    if v.OtherValue? then Raised(TypeError, m)
    else
      var p := InsertPosition(|m.records|, i);
      Updated(Message(m.records[..p] + [v.record] + m.records[p..]))
  }

  /** The two documented special cases: inserting at 0 prepends, inserting at the length appends. */
  lemma InsertAsDocumented(m: Message, r: Record)
    ensures Insert(m, 0, RecordValue(r)).msg.records == [r] + m.records
    ensures Insert(m, |m.records|, RecordValue(r)) == Append(m, RecordValue(r))
  {}

  /** Popping a record and inserting it back at its position restores the message. */
  lemma PopInsertRoundTrip(m: Message, i: int)
    requires ValidPosition(|m.records|, i)
    ensures var popped := Pop(m, i).value;
      Insert(popped.msg, Position(|m.records|, i), RecordValue(popped.record)) == Updated(m)
  {}

  // ---------------------------------------------------------------------
  // Accessors
  // ---------------------------------------------------------------------

  /** `len(message)`: the number of records. */
  function Length(m: Message): (n: nat)
    ensures forall i :: 0 <= i < n ==> GetItem(m, i).Success?
    ensures GetItem(m, n).Failure?
  {
    |m.records|
  }

  /** `type`: the first record's type, or None for an empty message. */
  function Type(m: Message): (r: Option<string>)
    ensures r.None? <==> Length(m) == 0
    ensures r.Some? ==> r.value == m.records[0].recordType
  {
    if |m.records| > 0 then Some(m.records[0].recordType) else None
  }

  /** `name`: the first record's name, or None for an empty message. */
  function Name(m: Message): (r: Option<string>)
    ensures r.None? <==> Length(m) == 0
    ensures r.Some? ==> r.value == m.records[0].name
  {
    if |m.records| > 0 then Some(m.records[0].name) else None
  }

  /** Appending to a message does not change its type or name unless it was empty. */
  lemma AppendKeepsTypeAndName(m: Message, v: Value)
    requires Length(m) > 0 && v.RecordValue?
    ensures Type(Append(m, v).msg) == Type(m) && Name(Append(m, v).msg) == Name(m)
    ensures Length(Append(m, v).msg) == Length(m) + 1
  {}

  /** Serialising keeps the length, the type and the name. */
  lemma WriteKeepsContent(m: Message)
    ensures Length(ToBytes(m).msg) == Length(m)
    ensures Type(ToBytes(m).msg) == Type(m) && Name(ToBytes(m).msg) == Name(m)
  {}
}
