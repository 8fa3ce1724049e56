/** The two readers of `git cat-file --batch` output: an offset that walks over length-prefixed records. */
module BatchReader {
  import opened Framing
  import opened Wrappers
  import opened Ascii
  import opened Joining
  import opened JsonText
  import opened PinInventory

  const SPACE: Byte := 32
  const CR: Byte := 13

  // ----- The printed form -----

  /** One object as the batch command prints it: its id and its content. */
  datatype Blob = Blob(id: seq<Byte>, content: seq<Byte>)

  function Header(id: seq<Byte>, size: nat): seq<Byte> {
    id + Encode(" blob ") + Encode(Decimal(size))
  }

  function Record(b: Blob): seq<Byte> {
    Header(b.id, |b.content|) + [LF] + b.content + [LF]
  }

  function Printed(blobs: seq<Blob>): seq<Byte> {
    if blobs == [] then [] else Record(blobs[0]) + Printed(blobs[1..])
  }

  /** What a reader expects of one record: a size, and a test of the id and the content. */
  datatype Row = Row(size: nat, accepts: (seq<Byte>, seq<Byte>) -> bool)

  predicate HexDigits(id: seq<Byte>) {
    |id| == 40 && forall i :: 0 <= i < 40 ==> 48 <= id[i] <= 57 || 97 <= id[i] <= 102
  }

  /** An id of the object database: forty hexadecimal digits. */
  ghost predicate ObjectId(id: seq<Byte>) {
    |id| == 40 && forall i :: 0 <= i < 40 ==> id[i] as char in "0123456789abcdef"
  }

  lemma ObjectIdIff(id: seq<Byte>)
    ensures HexDigits(id) <==> ObjectId(id)
  {
    if |id| == 40 {
      forall i | 0 <= i < 40
        ensures id[i] as char in "0123456789abcdef" <==> 48 <= id[i] <= 57 || 97 <= id[i] <= 102
      {
        HexDigitIff(id[i]);
      }
    }
  }

  lemma HexDigitIff(b: Byte)
    ensures b as char in "0123456789abcdef" <==> 48 <= b <= 57 || 97 <= b <= 102
  {
    var digits := "0123456789abcdef";
    assert b as char in digits <==> exists j :: 0 <= j < 16 && digits[j] == b as char;
    assert forall j :: 0 <= j < 16 ==> digits[j] as int == if j < 10 then 48 + j else 87 + j;
    if 48 <= b <= 57 || 97 <= b <= 102 {
      assert digits[if b <= 57 then b - 48 else b - 87] == b as char;
    }
  }

  /** A printed object: id, type and size, a newline, the content, a newline. */
  lemma RecordIs(b: Blob)
    ensures Record(b) == b.id + [32, 98, 108, 111, 98, 32] + Encode(Decimal(|b.content|)) + [10] + b.content + [10]
  {
    assert Encode(" blob ") == [32, 98, 108, 111, 98, 32];
  }

  ghost predicate Meets(b: Blob, row: Row) {
    HexDigits(b.id) && |b.content| == row.size && row.accepts(b.id, b.content)
  }

  ghost predicate AllMeet(blobs: seq<Blob>, rows: seq<Row>) {
    |blobs| == |rows| && forall i :: 0 <= i < |rows| ==> Meets(blobs[i], rows[i])
  }

  /** The buffer is the printed form of objects that meet the rows. */
  ghost predicate IsBatch(batch: seq<Byte>, rows: seq<Row>) {
    exists blobs :: AllMeet(blobs, rows) && batch == Printed(blobs)
  }

  // ----- Reading one record -----

  /** `split(" ")`. */
  function Split(s: seq<Byte>): seq<seq<Byte>>
    decreases |s|
  {
    if SPACE !in s then [s] else
      var i := IndexOf(s, SPACE);
      [s[..i]] + Split(s[i + 1..])
  }

  predicate IsHeader(header: seq<Byte>, size: nat) {
    var parts := Split(header);
    |parts| == 3 && HexDigits(parts[0]) && parts[1] == Encode("blob") && parts[2] == Encode(Decimal(size))
  }

  /** `subarray(from, to)`, which stops at the end of the buffer. */
  function Subarray(s: seq<Byte>, from: nat, to: nat): seq<Byte> {
    var start := if from <= |s| then from else |s|;
    s[start..if start <= to <= |s| then to else if to < start then start else |s|]
  }

  /** Where the content of a record begins, and the id its header names. */
  datatype Lead = Lead(start: nat, id: seq<Byte>)

  /** The header at the front of `rest`, None if it is not the expected one. */
  function HeaderOf(rest: seq<Byte>, size: nat): Option<Lead> {
    if LF !in rest then None
    else
      var end := IndexOf(rest, LF);
      if end == 0 || !IsHeader(rest[..end], size) then None
      else Some(Lead(end + 1, Split(rest[..end])[0]))
  }

  /** The position behind the record whose content begins at `start`. */
  function Behind(batch: seq<Byte>, start: nat, id: seq<Byte>, row: Row): Option<nat> {
    if !row.accepts(id, Subarray(batch, start, start + row.size)) then None
    else if !(start + row.size < |batch| && batch[start + row.size] == LF) then None
    else Some(start + row.size + 1)
  }

  /** The position behind the record at `offset`, None if it is not the expected one. */
  function Next(batch: seq<Byte>, offset: nat, row: Row): (behind: Option<nat>)
    requires offset <= |batch|
    ensures behind.Some? ==> behind.value <= |batch|
  {
    match HeaderOf(batch[offset..], row.size)
    case None => None
    case Some(lead) => Behind(batch, offset + lead.start, lead.id, row)
  }

  lemma IdHasNoSpace(id: seq<Byte>)
    requires HexDigits(id)
    ensures SPACE !in id && LF !in id
  {}

  lemma DecimalHasNoSpace(n: nat)
    ensures SPACE !in Encode(Decimal(n)) && LF !in Encode(Decimal(n))
  {
    var t := Decimal(n);
    forall i | 0 <= i < |t|
      ensures Encode(t)[i] != SPACE
    {
      assert '0' <= t[i] <= '9';
    }
  }

  lemma SplitFirst(word: seq<Byte>, rest: seq<Byte>)
    requires SPACE !in word
    ensures Split(word + [SPACE] + rest) == [word] + Split(rest)
  {
    var s := word + [SPACE] + rest;
    assert s[|word|] == SPACE && forall j :: 0 <= j < |word| ==> s[j] == word[j];
    IndexOfUnique(s, SPACE, |word|);
    assert s[..|word|] == word && s[|word| + 1..] == rest;
  }

  lemma HeaderWords(id: seq<Byte>, size: nat)
    ensures Header(id, size) == id + [SPACE] + (Encode("blob") + [SPACE] + Encode(Decimal(size)))
  {
    assert Encode(" blob ") == [SPACE] + Encode("blob") + [SPACE];
  }

  /** The header test accepts every printed header, and the id is its first word. */
  lemma HeaderIfPrinted(id: seq<Byte>, size: nat)
    requires HexDigits(id)
    ensures IsHeader(Header(id, size), size) && Split(Header(id, size))[0] == id
    ensures LF !in Header(id, size) && Header(id, size) != []
  {
    var digits := Encode(Decimal(size));
    IdHasNoSpace(id);
    DecimalHasNoSpace(size);
    HeaderWords(id, size);
    assert SPACE !in Encode("blob") && LF !in Encode("blob");
    SplitFirst(id, Encode("blob") + [SPACE] + digits);
    SplitFirst(Encode("blob"), digits);
    assert Split(digits) == [digits];
  }

  function Joined(parts: seq<seq<Byte>>): seq<Byte>
    requires parts != []
  {
    if |parts| == 1 then parts[0] else parts[0] + [SPACE] + Joined(parts[1..])
  }

  lemma {:induction false} JoinedSplit(s: seq<Byte>)
    ensures Split(s) != [] && Joined(Split(s)) == s
    decreases |s|
  {
    if SPACE in s {
      var i := IndexOf(s, SPACE);
      JoinedSplit(s[i + 1..]);
      assert Split(s)[1..] == Split(s[i + 1..]);
      SplitAt(s, i);
    }
  }

  lemma JoinThree(parts: seq<seq<Byte>>)
    requires |parts| == 3
    ensures Joined(parts) == parts[0] + [SPACE] + (parts[1] + [SPACE] + parts[2])
  {
    assert |parts[1..]| == 2 && parts[1..][1..] == [parts[2]];
    assert Joined(parts[1..][1..]) == parts[2];
  }

  /** And no other header. */
  lemma HeaderOnlyIf(header: seq<Byte>, size: nat)
    requires IsHeader(header, size)
    ensures header == Header(Split(header)[0], size)
  {
    JoinedSplit(header);
    JoinThree(Split(header));
    HeaderWords(Split(header)[0], size);
  }

  lemma HeaderRead(rest: seq<Byte>, size: nat)
    requires HeaderOf(rest, size).Some?
    ensures var lead := HeaderOf(rest, size).value;
      HexDigits(lead.id) && 0 < lead.start <= |rest| && rest[..lead.start] == Header(lead.id, size) + [LF]
  {
    var end := IndexOf(rest, LF);
    HeaderOnlyIf(rest[..end], size);
    OneMore(rest, end);
  }

  lemma OneMore(rest: seq<Byte>, end: nat)
    requires end < |rest| && rest[end] == LF
    ensures rest[..end + 1] == rest[..end] + [LF]
  {}

  lemma HeaderFound(id: seq<Byte>, size: nat, more: seq<Byte>)
    requires HexDigits(id)
    ensures HeaderOf(Header(id, size) + [LF] + more, size) == Some(Lead(|Header(id, size)| + 1, id))
  {
    var header := Header(id, size);
    HeaderIfPrinted(id, size);
    LineInFront(header, more);
  }

  lemma LineInFront(header: seq<Byte>, more: seq<Byte>)
    requires LF !in header
    ensures var rest := header + [LF] + more;
      LF in rest && IndexOf(rest, LF) == |header| && rest[..|header|] == header
  {
    var rest := header + [LF] + more;
    assert rest[|header|] == LF && forall j :: 0 <= j < |header| ==> rest[j] == header[j];
    IndexOfUnique(rest, LF, |header|);
  }

  /** Taking a record off the front. */
  lemma TakeRecord(rest: seq<Byte>, row: Row)
    requires Next(rest, 0, row).Some?
    ensures exists b :: Meets(b, row) && Next(rest, 0, row).value == |Record(b)| <= |rest|
                        && rest[..|Record(b)|] == Record(b)
  {
    assert rest[0..] == rest;
    HeaderRead(rest, row.size);
    var lead := HeaderOf(rest, row.size).value;
    TakeContent(rest, lead, row);
  }

  lemma TakeContent(rest: seq<Byte>, lead: Lead, row: Row)
    requires HexDigits(lead.id) && 0 < lead.start <= |rest|
    requires rest[..lead.start] == Header(lead.id, row.size) + [LF]
    requires Behind(rest, lead.start, lead.id, row).Some?
    ensures var b := Blob(lead.id, rest[lead.start..lead.start + row.size]);
      && Meets(b, row) && Behind(rest, lead.start, lead.id, row).value == |Record(b)|
      && rest[..|Record(b)|] == Record(b)
  {
    TwoParts(rest, lead.start, row.size);
  }

  lemma TwoParts(rest: seq<Byte>, start: nat, size: nat)
    requires start + size < |rest| && rest[start + size] == LF
    ensures rest[..start + size + 1] == rest[..start] + rest[start..start + size] + [LF]
  {}

  /** A printed record in front is taken off. */
  lemma FindRecord(b: Blob, more: seq<Byte>, row: Row)
    requires Meets(b, row)
    ensures Next(Record(b) + more, 0, row) == Some(|Record(b)|)
  {
    var rest, line := Record(b) + more, Header(b.id, row.size) + [LF];
    assert rest[0..] == rest;
    Regroup(Header(b.id, row.size), b.content, more);
    HeaderFound(b.id, row.size, b.content + [LF] + more);
    FindContent(rest, line, b, more, row);
  }

  lemma Regroup(header: seq<Byte>, content: seq<Byte>, more: seq<Byte>)
    ensures header + [LF] + content + [LF] + more == header + [LF] + (content + [LF] + more)
  {}

  lemma FindContent(rest: seq<Byte>, line: seq<Byte>, b: Blob, more: seq<Byte>, row: Row)
    requires |b.content| == row.size && row.accepts(b.id, b.content) && rest == line + b.content + [LF] + more
    ensures Behind(rest, |line|, b.id, row) == Some(|line| + row.size + 1)
  {
    assert rest[|line|..|line| + row.size] == b.content;
  }

  lemma RecordSize(b: Blob)
    requires HexDigits(b.id)
    ensures |Record(b)| == |b.content| + |Decimal(|b.content|)| + 48
  {}

  lemma PeelFirst(rest: seq<Byte>, rows: seq<Row>)
    requires rows != [] && IsBatch(rest, rows)
    ensures Next(rest, 0, rows[0]).Some?
    ensures IsBatch(rest[Next(rest, 0, rows[0]).value..], rows[1..])
  {
    var blobs :| AllMeet(blobs, rows) && rest == Printed(blobs);
    var b, more := blobs[0], blobs[1..];
    assert Meets(b, rows[0]);
    FindRecord(b, Printed(more), rows[0]);
    assert rest[|Record(b)|..] == Printed(more);
    assert AllMeet(more, rows[1..]);
  }

  lemma PutBack(rest: seq<Byte>, b: Blob, rows: seq<Row>)
    requires rows != [] && Meets(b, rows[0]) && |Record(b)| <= |rest| && rest[..|Record(b)|] == Record(b)
    requires IsBatch(rest[|Record(b)|..], rows[1..])
    ensures IsBatch(rest, rows)
  {
    var more :| AllMeet(more, rows[1..]) && rest[|Record(b)|..] == Printed(more);
    var blobs := [b] + more;
    assert blobs[1..] == more;
    assert AllMeet(blobs, rows);
    assert rest == Printed(blobs);
  }

  /** One step of the reader: the buffer is a batch for these rows exactly when its front is a record for the
      first and the remainder is a batch for the others. */
  lemma PeelBatch(rest: seq<Byte>, rows: seq<Row>)
    requires rows != []
    ensures IsBatch(rest, rows) <==>
      Next(rest, 0, rows[0]).Some? && IsBatch(rest[Next(rest, 0, rows[0]).value..], rows[1..])
  {
    if IsBatch(rest, rows) {
      PeelFirst(rest, rows);
    } else if Next(rest, 0, rows[0]).Some? {
      TakeRecord(rest, rows[0]);
      var b :| Meets(b, rows[0]) && Next(rest, 0, rows[0]).value == |Record(b)| <= |rest|
               && rest[..|Record(b)|] == Record(b);
      if IsBatch(rest[|Record(b)|..], rows[1..]) {
        PutBack(rest, b, rows);
      }
    }
  }

  lemma EmptyBatch(rest: seq<Byte>)
    ensures IsBatch(rest, []) <==> rest == []
  {
    if rest == [] {
      var none: seq<Blob> := [];
      assert AllMeet(none, []) && rest == Printed(none);
    }
  }

  /** A buffer has one reading: the same rows cannot be met by two lists of objects with the same print. */
  lemma {:induction false} PrintedIsUnique(one: seq<Blob>, two: seq<Blob>, rows: seq<Row>)
    requires AllMeet(one, rows) && AllMeet(two, rows) && Printed(one) == Printed(two)
    ensures one == two
    decreases |rows|
  {
    if rows != [] {
      var b, d := one[0], two[0];
      assert Meets(b, rows[0]) && Meets(d, rows[0]);
      var s := Printed(one);
      assert b.id == s[..40] == d.id;
      assert Record(b) == s[..|Record(b)|] && Record(d) == s[..|Record(d)|];
      assert |Record(b)| == |Record(d)|;
      var start := |Header(b.id, rows[0].size)| + 1;
      assert b.content == Record(b)[start..start + rows[0].size] == d.content;
      assert Printed(one[1..]) == s[|Record(b)|..] == Printed(two[1..]);
      PrintedIsUnique(one[1..], two[1..], rows[1..]);
      assert one == [b] + one[1..] && two == [d] + two[1..];
    }
  }

  function TotalSize(rows: seq<Row>): nat {
    if rows == [] then 0 else rows[0].size + |Decimal(rows[0].size)| + 48 + TotalSize(rows[1..])
  }

  lemma {:induction false} BatchSize(blobs: seq<Blob>, rows: seq<Row>)
    requires AllMeet(blobs, rows)
    ensures |Printed(blobs)| == TotalSize(rows)
    decreases |rows|
  {
    if rows != [] {
      assert Meets(blobs[0], rows[0]);
      RecordSize(blobs[0]);
      BatchSize(blobs[1..], rows[1..]);
    }
  }

  /** The rows fix the length, so every truncated and every over-long buffer is rejected. */
  lemma OnlyOneLength(batch: seq<Byte>, other: seq<Byte>, rows: seq<Row>)
    requires IsBatch(batch, rows) && (batch < other || other < batch)
    ensures !IsBatch(other, rows)
  {
    var blobs :| AllMeet(blobs, rows) && batch == Printed(blobs);
    BatchSize(blobs, rows);
    if IsBatch(other, rows) {
      var others :| AllMeet(others, rows) && other == Printed(others);
      BatchSize(others, rows);
      assert false;
    }
  }

  // ----- The reader of the revised input -----

  /** Any object id, and content of the pinned size and hash. */
  function PinRow(hash: seq<Byte> -> string, pin: Pin): Row {
    Row(pin.bytes, (id, content) => hash(content) == pin.sha256)
  }

  function PinRows(hash: seq<Byte> -> string, pins: seq<Pin>): (rows: seq<Row>)
    ensures |rows| == |pins| && forall i :: 0 <= i < |pins| ==> rows[i] == PinRow(hash, pins[i])
  {
    seq(|pins|, i requires 0 <= i < |pins| => PinRow(hash, pins[i]))
  }

  /** Finds the header at `offset`. */
  method ReadHeader(batch: seq<Byte>, offset: nat, size: nat) returns (lead: Option<Lead>)
    requires offset <= |batch|
    ensures lead == HeaderOf(batch[offset..], size)
  {
    if LF !in batch[offset..] {
      return None;
    }
    var end := offset + IndexOf(batch[offset..], LF);
    assert batch[offset..end] == batch[offset..][..end - offset];
    if !(end > offset) || !IsHeader(batch[offset..end], size) {
      return None;
    }
    lead := Some(Lead(end + 1 - offset, Split(batch[offset..end])[0]));
  }

  /** One turn of the loop: reads the record at `offset` and returns the offset behind it. */
  method ReadRecord(batch: seq<Byte>, offset: nat, row: Row) returns (behind: Option<nat>)
    requires offset <= |batch|
    ensures behind == Next(batch, offset, row)
  {
    var lead := ReadHeader(batch, offset, row.size);
    if lead.None? {
      return None;
    }
    var start := offset + lead.value.start;
    var bytes := Subarray(batch, start, start + row.size);
    if !row.accepts(lead.value.id, bytes) {
      return None;
    }
    var last := start + row.size;
    if !(last < |batch| && batch[last] == LF) {
      return None;
    }
    behind := Some(last + 1);
  }

  function Ahead(offset: nat, n: Option<nat>): Option<nat> {
    match n
    case None => None
    case Some(k) => Some(offset + k)
  }

  lemma NextShifted(batch: seq<Byte>, offset: nat, rest: seq<Byte>, row: Row)
    requires offset <= |batch| && rest == batch[offset..]
    ensures Next(batch, offset, row) == Ahead(offset, Next(rest, 0, row))
  {
    assert rest[0..] == rest;
    var lead := HeaderOf(rest, row.size);
    if lead.Some? {
      BehindShifted(batch, offset, offset + lead.value.start, lead.value.id, row);
    }
  }

  lemma BehindShifted(batch: seq<Byte>, offset: nat, start: nat, id: seq<Byte>, row: Row)
    requires offset <= start && offset <= |batch|
    ensures Behind(batch, start, id, row) == Ahead(offset, Behind(batch[offset..], start - offset, id, row))
  {
    ShiftedSubarray(batch, offset, start, start + row.size);
  }

  lemma ShiftedSubarray(batch: seq<Byte>, offset: nat, start: nat, end: nat)
    requires offset <= start <= end
    requires offset <= |batch|
    ensures Subarray(batch, start, end) == Subarray(batch[offset..], start - offset, end - offset)
  {}

  lemma RestOfBatch(batch: seq<Byte>, rows: seq<Row>, offset: nat, i: nat)
    requires offset <= |batch| && i < |rows|
    ensures IsBatch(batch[offset..], rows[i..]) <==>
      Next(batch, offset, rows[i]).Some?
      && IsBatch(batch[Next(batch, offset, rows[i]).value..], rows[i + 1..])
  {
    RowsFrom(rows, i);
    StepOfBatch(batch, offset, batch[offset..], rows[i..]);
  }

  lemma StepOfBatch(batch: seq<Byte>, offset: nat, rest: seq<Byte>, rows: seq<Row>)
    requires offset <= |batch| && rest == batch[offset..] && rows != []
    ensures IsBatch(rest, rows) <==>
      Next(batch, offset, rows[0]).Some? && IsBatch(batch[Next(batch, offset, rows[0]).value..], rows[1..])
  {
    NextShifted(batch, offset, rest, rows[0]);
    PeelBatch(rest, rows);
    var here := Next(rest, 0, rows[0]);
    if here.Some? {
      TailOfTail(batch, offset, here.value);
      assert Next(batch, offset, rows[0]) == Some(offset + here.value);
    }
  }

  lemma RowsFrom(rows: seq<Row>, i: nat)
    requires i < |rows|
    ensures rows[i..][0] == rows[i] && rows[i..][1..] == rows[i + 1..]
  {}

  lemma TailOfTail(batch: seq<Byte>, offset: nat, n: nat)
    requires offset + n <= |batch|
    ensures batch[offset..][n..] == batch[offset + n..]
  {}

  /** An object of the pinned size and hash. */
  ghost predicate Pinned(hash: seq<Byte> -> string, pin: Pin, b: Blob) {
    ObjectId(b.id) && |b.content| == pin.bytes && hash(b.content) == pin.sha256
  }

  lemma PinnedIff(hash: seq<Byte> -> string, pin: Pin, b: Blob)
    ensures Meets(b, PinRow(hash, pin)) <==> Pinned(hash, pin, b)
  {
    ObjectIdIff(b.id);
  }

  lemma PinnedBatch(hash: seq<Byte> -> string, batch: seq<Byte>, pins: seq<Pin>)
    ensures IsBatch(batch, PinRows(hash, pins)) <==>
      exists blobs ::
        && |blobs| == |pins| && batch == Printed(blobs)
        && forall i :: 0 <= i < |pins| ==> Pinned(hash, pins[i], blobs[i])
  {
    var rows := PinRows(hash, pins);
    forall blobs: seq<Blob> | |blobs| == |pins|
      ensures AllMeet(blobs, rows) <==> forall i :: 0 <= i < |pins| ==> Pinned(hash, pins[i], blobs[i])
    {
      forall i | 0 <= i < |pins|
        ensures Meets(blobs[i], rows[i]) <==> Pinned(hash, pins[i], blobs[i])
      {
        PinnedIff(hash, pins[i], blobs[i]);
      }
    }
  }

  /** The loop: walks over one record for each pin. */
  method ReadPins(hash: seq<Byte> -> string, batch: seq<Byte>, pins: seq<Pin>) returns (accepted: bool)
    ensures accepted <==> IsBatch(batch, PinRows(hash, pins))
  {
    ghost var rows := PinRows(hash, pins);
    var offset: nat := 0;
    for i := 0 to |pins|
      invariant offset <= |batch|
      invariant IsBatch(batch, rows) <==> IsBatch(batch[offset..], rows[i..])
    {
      RestOfBatch(batch, rows, offset, i);
      var behind := ReadRecord(batch, offset, PinRow(hash, pins[i]));
      if behind.None? {
        return false;
      }
      offset := behind.value;
    }
    assert rows[|pins|..] == [];
    EmptyBatch(batch[offset..]);
    accepted := offset == |batch|;
  }

  /** The reader accepts a buffer exactly when it is the printed form of objects with the pinned contents, whatever
      bytes those contents hold. */
  method ReadRevised(hash: seq<Byte> -> string, batch: seq<Byte>, pins: seq<Pin>) returns (accepted: bool)
    ensures accepted <==>
      exists blobs ::
        && |blobs| == |pins| && batch == Printed(blobs)
        && forall i :: 0 <= i < |pins| ==> Pinned(hash, pins[i], blobs[i])
  {
    PinnedBatch(hash, batch, pins);
    accepted := ReadPins(hash, batch, pins);
  }

  // ----- The reader of the frozen inputs -----

  /** How a working file with carriage returns is represented in the tree: its raw bytes as retained, and the
      size and hash of its checkout form. */
  datatype TextRow = TextRow(raw: seq<Byte>, attributesHold: bool, bytes: nat, sha256: string)

  datatype Entry = Entry(blob: seq<Byte>, pin: Pin, text: Option<TextRow>)

  /** `replaceAll("\r\n", "\n")`: left to right, without looking at its own output again. */
  function CrlfToLf(s: seq<Byte>): (t: seq<Byte>)
    decreases |s|
  {
    if |s| >= 2 && s[0] == CR && s[1] == LF then [LF] + CrlfToLf(s[2..])
    else if s == [] then []
    else [s[0]] + CrlfToLf(s[1..])
  }

  /** The retained raw bytes are the pinned file, plain UTF-8 text, and their checkout form is the content. */
  predicate Represents(hash: seq<Byte> -> string, isUtf8: seq<Byte> -> bool, e: Entry, content: seq<Byte>) {
    match e.text
    case None => true
    case Some(t) =>
      && t.attributesHold
      && |t.raw| == e.pin.bytes && hash(t.raw) == e.pin.sha256
      && isUtf8(t.raw) && 0 !in t.raw
      && CrlfToLf(t.raw) == content
  }

  function EntryRow(hash: seq<Byte> -> string, isUtf8: seq<Byte> -> bool, e: Entry): Row {
    var size := if e.text.Some? then e.text.value.bytes else e.pin.bytes;
    var sha256 := if e.text.Some? then e.text.value.sha256 else e.pin.sha256;
    Row(size, (id, content) =>
      id == e.blob && |content| == size && hash(content) == sha256 && Represents(hash, isUtf8, e, content))
  }

  function EntryRows(hash: seq<Byte> -> string, isUtf8: seq<Byte> -> bool, entries: seq<Entry>): (rows: seq<Row>)
    ensures |rows| == |entries| && forall i :: 0 <= i < |entries| ==> rows[i] == EntryRow(hash, isUtf8, entries[i])
  {
    seq(|entries|, i requires 0 <= i < |entries| => EntryRow(hash, isUtf8, entries[i]))
  }

  function RowBytes(rows: seq<Row>): nat {
    if rows == [] then 0 else RowBytes(rows[..|rows| - 1]) + rows[|rows| - 1].size
  }

  function PinnedBytes(entries: seq<Entry>): nat {
    if entries == [] then 0 else PinnedBytes(entries[..|entries| - 1]) + entries[|entries| - 1].pin.bytes
  }

  lemma TotalsStep(rows: seq<Row>, entries: seq<Entry>, i: nat)
    requires i < |rows| && i < |entries|
    ensures RowBytes(rows[..i + 1]) == RowBytes(rows[..i]) + rows[i].size
    ensures PinnedBytes(entries[..i + 1]) == PinnedBytes(entries[..i]) + entries[i].pin.bytes
  {
    assert rows[..i + 1][..i] == rows[..i] && entries[..i + 1][..i] == entries[..i];
  }

  lemma AllRead(rows: seq<Row>, entries: seq<Entry>)
    requires |rows| == |entries|
    ensures rows[|entries|..] == [] && rows[..|entries|] == rows && entries[..|entries|] == entries
  {}

  /** The second reader's loop, with its two totals: the bytes of the objects and those of the working
      files. */
  method ReadEntries(hash: seq<Byte> -> string, isUtf8: seq<Byte> -> bool, batch: seq<Byte>, entries: seq<Entry>,
                     ghost rows: seq<Row>)
      returns (offset: Option<nat>, totalBytes: nat, totalFrozenBytes: nat)
    requires rows == EntryRows(hash, isUtf8, entries)
    ensures offset.None? ==> !IsBatch(batch, rows)
    ensures offset.Some? ==> offset.value <= |batch| && (IsBatch(batch, rows) <==> IsBatch(batch[offset.value..], []))
    ensures offset.Some? ==> totalBytes == RowBytes(rows) && totalFrozenBytes == PinnedBytes(entries)
  {
    var at: nat := 0;
    totalBytes, totalFrozenBytes := 0, 0;
    for i := 0 to |entries|
      invariant at <= |batch|
      invariant IsBatch(batch, rows) <==> IsBatch(batch[at..], rows[i..])
      invariant totalBytes == RowBytes(rows[..i]) && totalFrozenBytes == PinnedBytes(entries[..i])
    {
      RestOfBatch(batch, rows, at, i);
      var row := EntryRow(hash, isUtf8, entries[i]);
      var behind := ReadRecord(batch, at, row);
      if behind.None? {
        return None, 0, 0;
      }
      at := behind.value;
      TotalsStep(rows, entries, i);
      totalBytes := totalBytes + row.size;
      totalFrozenBytes := totalFrozenBytes + entries[i].pin.bytes;
    }
    AllRead(rows, entries);
    offset := Some(at);
  }

  // What the replacement of line ends does.

  predicate HasCrlf(s: seq<Byte>) {
    |s| >= 2 && ((s[0] == CR && s[1] == LF) || HasCrlf(s[1..]))
  }

  /** Pieces without CR LF that the one text joins by CR LF and the other by LF. */
  ghost predicate AreLines(pieces: seq<seq<Byte>>, raw: seq<Byte>, text: seq<Byte>) {
    && pieces != [] && (forall i :: 0 <= i < |pieces| ==> !HasCrlf(pieces[i]))
    && raw == JoinWith(pieces, [13, 10]) && text == JoinWith(pieces, [10])
  }

  /** The two texts differ in nothing but their line ends. */
  ghost predicate SameButLineEnds(raw: seq<Byte>, text: seq<Byte>) {
    exists pieces :: AreLines(pieces, raw, text)
  }

  lemma {:induction false} ReplaceBehind(piece: seq<Byte>, rest: seq<Byte>)
    requires !HasCrlf(piece)
    ensures CrlfToLf(piece + ([13, 10] + rest)) == piece + ([10] + CrlfToLf(rest))
    decreases |piece|
  {
    var more := [13, 10] + rest;
    if piece == [] {
      ReplaceHere(more, rest);
      assert piece + more == more && piece + ([10] + CrlfToLf(rest)) == [10] + CrlfToLf(rest);
    } else {
      ReplaceBehind(piece[1..], rest);
      NoCrlfInFront(piece, more);
      FirstAndRest(piece, [10] + CrlfToLf(rest));
    }
  }

  lemma FirstAndRest(piece: seq<Byte>, more: seq<Byte>)
    requires piece != []
    ensures [piece[0]] + (piece[1..] + more) == piece + more
  {}

  lemma ReplaceHere(s: seq<Byte>, rest: seq<Byte>)
    requires s == [13, 10] + rest
    ensures CrlfToLf(s) == [10] + CrlfToLf(rest)
  {
    assert s[2..] == rest;
  }

  lemma {:induction false} NothingToReplace(piece: seq<Byte>)
    requires !HasCrlf(piece)
    ensures CrlfToLf(piece) == piece
    decreases |piece|
  {
    if piece != [] {
      NothingToReplace(piece[1..]);
      FirstAndRest(piece, []);
      NoCrlfInFront(piece, []);
      assert piece + [] == piece && piece[1..] + [] == piece[1..];
    }
  }

  lemma NoCrlfInFront(piece: seq<Byte>, more: seq<Byte>)
    requires piece != [] && !HasCrlf(piece) && (more != [] ==> more[0] == 13)
    ensures CrlfToLf(piece + more) == [piece[0]] + CrlfToLf(piece[1..] + more)
  {
    var s := piece + more;
    assert s[1..] == piece[1..] + more && s[0] == piece[0];
    assert |piece| > 1 ==> s[1] == piece[1];
    assert |piece| == 1 && more != [] ==> s[1] == 13;
  }

  lemma {:induction false} ReplaceInPieces(pieces: seq<seq<Byte>>)
    requires pieces != [] && forall i :: 0 <= i < |pieces| ==> !HasCrlf(pieces[i])
    ensures CrlfToLf(JoinWith(pieces, [13, 10])) == JoinWith(pieces, [10])
    decreases |pieces|
  {
    if |pieces| == 1 {
      NothingToReplace(pieces[0]);
    } else {
      ReplaceInPieces(pieces[1..]);
      var rest, text := JoinWith(pieces[1..], [13, 10]), JoinWith(pieces[1..], [10]);
      ReplaceFirst(pieces[0], rest, text);
    }
  }

  lemma ReplaceFirst(piece: seq<Byte>, rest: seq<Byte>, text: seq<Byte>)
    requires !HasCrlf(piece) && CrlfToLf(rest) == text
    ensures CrlfToLf(piece + [13, 10] + rest) == piece + [10] + text
  {
    ReplaceBehind(piece, rest);
    Assoc(piece, [13, 10], rest);
    Assoc(piece, [10], text);
  }

  lemma Assoc(a: seq<Byte>, b: seq<Byte>, c: seq<Byte>)
    ensures a + b + c == a + (b + c)
  {}

  /** Every text is pieces without CR LF, joined by CR LF. */
  lemma {:induction false} InPieces(s: seq<Byte>) returns (pieces: seq<seq<Byte>>)
    ensures pieces != [] && (forall i :: 0 <= i < |pieces| ==> !HasCrlf(pieces[i]))
    ensures s == JoinWith(pieces, [13, 10])
    ensures !(|s| >= 2 && s[0] == 13 && s[1] == 10) && s != [] ==> pieces[0] != [] && pieces[0][0] == s[0]
    ensures |s| >= 2 && s[0] == 13 && s[1] == 10 ==> pieces[0] == []
    decreases |s|
  {
    if s == [] {
      pieces := [[]];
    } else if |s| >= 2 && s[0] == 13 && s[1] == 10 {
      var more := InPieces(s[2..]);
      pieces := [[]] + more;
      assert pieces[1..] == more;
      assert s == [13, 10] + s[2..];
    } else {
      var more := InPieces(s[1..]);
      pieces := [[s[0]] + more[0]] + more[1..];
      assert pieces[1..] == more[1..];
      assert pieces[0][1..] == more[0];
      assert s == [s[0]] + s[1..];
    }
  }

  lemma ReplaceIf(raw: seq<Byte>, text: seq<Byte>, pieces: seq<seq<Byte>>)
    requires AreLines(pieces, raw, text)
    ensures CrlfToLf(raw) == text
  {
    ReplaceInPieces(pieces);
  }

  lemma ReplaceOnlyIf(raw: seq<Byte>) returns (pieces: seq<seq<Byte>>)
    ensures AreLines(pieces, raw, CrlfToLf(raw))
  {
    pieces := InPieces(raw);
    ReplaceInPieces(pieces);
  }

  lemma ReplaceIff(raw: seq<Byte>, text: seq<Byte>)
    ensures CrlfToLf(raw) == text <==> SameButLineEnds(raw, text)
  {
    var own := ReplaceOnlyIf(raw);
    if pieces :| AreLines(pieces, raw, text) {
      ReplaceIf(raw, text, pieces);
    }
  }

  /** The object is the one the entry names, of the size and hash the entry expects; where the entry retains raw bytes,
      those are the pinned file, plain text, and differ from the object in their line ends only. */
  ghost predicate Faithful(hash: seq<Byte> -> string, isUtf8: seq<Byte> -> bool, e: Entry, b: Blob) {
    && b.id == e.blob && ObjectId(e.blob)
    && match e.text
       case None => |b.content| == e.pin.bytes && hash(b.content) == e.pin.sha256
       case Some(t) =>
         && |b.content| == t.bytes && hash(b.content) == t.sha256
         && t.attributesHold && |t.raw| == e.pin.bytes && hash(t.raw) == e.pin.sha256
         && isUtf8(t.raw) && (forall i :: 0 <= i < |t.raw| ==> t.raw[i] != 0)
         && SameButLineEnds(t.raw, b.content)
  }

  lemma FaithfulIff(hash: seq<Byte> -> string, isUtf8: seq<Byte> -> bool, e: Entry, b: Blob)
    ensures Meets(b, EntryRow(hash, isUtf8, e)) <==> Faithful(hash, isUtf8, e, b)
  {
    ObjectIdIff(b.id);
    if e.text.Some? {
      ReplaceIff(e.text.value.raw, b.content);
    }
  }

  lemma FrozenBatch(hash: seq<Byte> -> string, isUtf8: seq<Byte> -> bool, batch: seq<Byte>, entries: seq<Entry>)
    ensures IsBatch(batch, EntryRows(hash, isUtf8, entries)) <==>
      exists blobs ::
        && |blobs| == |entries| && batch == Printed(blobs)
        && forall i :: 0 <= i < |entries| ==> Faithful(hash, isUtf8, entries[i], blobs[i])
  {
    var rows := EntryRows(hash, isUtf8, entries);
    forall blobs: seq<Blob> | |blobs| == |entries|
      ensures AllMeet(blobs, rows) <==>
        forall i :: 0 <= i < |entries| ==> Faithful(hash, isUtf8, entries[i], blobs[i])
    {
      forall i | 0 <= i < |entries|
        ensures Meets(blobs[i], rows[i]) <==> Faithful(hash, isUtf8, entries[i], blobs[i])
      {
        FaithfulIff(hash, isUtf8, entries[i], blobs[i]);
      }
    }
  }

  /** The second reader accepts exactly the printed form of the objects it names, each with its expected
      content and, where a working file had other line ends, with a faithful raw version of it. */
  method ReadFrozen(hash: seq<Byte> -> string, isUtf8: seq<Byte> -> bool, batch: seq<Byte>, entries: seq<Entry>)
      returns (accepted: bool, totalBytes: nat, totalFrozenBytes: nat)
    ensures accepted <==>
      exists blobs ::
        && |blobs| == |entries| && batch == Printed(blobs)
        && forall i :: 0 <= i < |entries| ==> Faithful(hash, isUtf8, entries[i], blobs[i])
    ensures accepted ==> totalBytes == RowBytes(EntryRows(hash, isUtf8, entries))
    ensures accepted ==> totalFrozenBytes == PinnedBytes(entries)
  {
    FrozenBatch(hash, isUtf8, batch, entries);
    var offset;
    offset, totalBytes, totalFrozenBytes := ReadEntries(hash, isUtf8, batch, entries, EntryRows(hash, isUtf8, entries));
    if offset.None? {
      return false, 0, 0;
    }
    EmptyBatch(batch[offset.value..]);
    accepted := offset.value == |batch|;
  }

  // ----- Line ends -----

  predicate HasCrCrlf(s: seq<Byte>) {
    |s| >= 3 && ((s[0] == CR && s[1] == CR && s[2] == LF) || HasCrCrlf(s[1..]))
  }

  /** A checkout form is free of CR LF exactly when the raw bytes hold no CR CR LF: the replacement does not
      look at its own output again. */
  lemma {:induction false} CheckoutKeepsCrlfIff(s: seq<Byte>)
    ensures HasCrlf(CrlfToLf(s)) <==> HasCrCrlf(s)
    decreases |s|
  {
    if |s| >= 2 && s[0] == CR && s[1] == LF {
      CheckoutKeepsCrlfIff(s[2..]);
      assert s[1..][1..] == s[2..];
      assert CrlfToLf(s)[1..] == CrlfToLf(s[2..]);
    } else if s != [] {
      CheckoutKeepsCrlfIff(s[1..]);
      assert CrlfToLf(s)[1..] == CrlfToLf(s[1..]);
    }
  }
}
