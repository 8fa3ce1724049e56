/** How long the frames are, and which of them the guest's frame limit holds. */
module FrameSizes {
  import opened Framing
  import opened Wrappers
  import opened HostJob
  import opened GuestJob
  import opened JobChannel
  import opened JobScript
  import opened JobWire
  import opened JobProgress
  import opened JsonText
  import opened JsonReading
  import opened FrameText
  import HostVerdict
  import Base64

  // ----- Sizes -----

  /** A character JSON writes as itself. */
  predicate PlainText(s: string) {
    forall i :: 0 <= i < |s| ==> Plain(s[i])
  }

  lemma {:induction false} PlainLength(s: string)
    requires PlainText(s)
    ensures |Quote(s)| == |s| + 2
    decreases |s|
  {
    if s != "" {
      EscapeForms(s[0]);
      PlainLength(s[1..]);
      assert |Quote(s[1..])| == |EscapeAll(s[1..])| + 2;
    }
  }

  function QuoteSizes(fields: seq<Member>): nat {
    if fields == [] then 0 else |MemberText(fields[0])| + 1 + QuoteSizes(fields[1..])
  }

  lemma {:induction false} MoreMembersLength(fields: seq<Member>)
    ensures |MoreMembers(fields)| == QuoteSizes(fields)
    decreases |fields|
  {
    if fields != [] {
      MoreMembersLength(fields[1..]);
    }
  }

  lemma ObjectLength(fields: seq<Member>)
    requires fields != []
    ensures |Text(Obj(fields))| == QuoteSizes(fields) + 1
  {
    MoreMembersLength(fields[1..]);
  }

  lemma {:induction false} SizesAppend(a: seq<Member>, b: seq<Member>)
    ensures QuoteSizes(a + b) == QuoteSizes(a) + QuoteSizes(b)
    decreases |a|
  {
    if a == [] {
      assert a + b == b;
    } else {
      assert (a + b)[1..] == a[1..] + b;
      SizesAppend(a[1..], b);
    }
  }

  /** The run id and the nonce as the coordinator's start-up checks require them. */
  ghost predicate BindingOk(binding: Binding) {
    && PlainText(binding.runId) && |binding.runId| == 36
    && PlainText(binding.nonce) && |binding.nonce| == 64
  }

  lemma MemberSize(key: string, v: Json)
    requires PlainText(key)
    ensures |MemberText(Member(key, v))| == |key| + 3 + |Text(v)|
  {
    PlainLength(key);
  }

  lemma FrameSize(binding: Binding, b: Body)
    requires BindingOk(binding) && PlainText(KindOf(b))
    ensures |FrameOf(binding, b)| == |KindOf(b)| + 133 + QuoteSizes(FieldsOf(b))
  {
    var header := Header(binding, KindOf(b));
    HeaderSize(binding, KindOf(b), header);
    SizesAppend(header, FieldsOf(b));
    ObjectLength(header + FieldsOf(b));
  }

  lemma HeaderSize(binding: Binding, kind: string, header: seq<Member>)
    requires BindingOk(binding) && PlainText(kind) && header == Header(binding, kind)
    ensures QuoteSizes(header) == |kind| + 132
  {
    var k, r, n := header[0].key, header[1].key, header[2].key;
    assert PlainText(k) && |k| == 4 && PlainText(r) && |r| == 5 && PlainText(n) && |n| == 5;
    PlainLength(kind);
    PlainLength(binding.runId);
    PlainLength(binding.nonce);
    assert header == [Member(k, Str(kind)), Member(r, Str(binding.runId)), Member(n, Str(binding.nonce))];
    ThreeFields(k, Str(kind), r, Str(binding.runId), n, Str(binding.nonce));
  }

  lemma ThreeFields(k: string, v: Json, r: string, u: Json, n: string, x: Json)
    requires PlainText(k) && PlainText(r) && PlainText(n)
    ensures QuoteSizes([Member(k, v), Member(r, u), Member(n, x)])
         == |k| + |Text(v)| + |r| + |Text(u)| + |n| + |Text(x)| + 12
  {
    MemberSize(k, v);
    TwoFields(r, u, n, x);
    assert [Member(k, v), Member(r, u), Member(n, x)][1..] == [Member(r, u), Member(n, x)];
  }

  lemma OneField(key: string, v: Json)
    requires PlainText(key)
    ensures QuoteSizes([Member(key, v)]) == |key| + |Text(v)| + 4
  {
    MemberSize(key, v);
    assert [Member(key, v)][1..] == [];
  }

  lemma TwoFields(key: string, v: Json, other: string, u: Json)
    requires PlainText(key) && PlainText(other)
    ensures QuoteSizes([Member(key, v), Member(other, u)]) == |key| + |Text(v)| + |other| + |Text(u)| + 8
  {
    MemberSize(key, v);
    OneField(other, u);
    assert [Member(key, v), Member(other, u)][1..] == [Member(other, u)];
  }

  lemma KindsArePlain(b: Body)
    ensures !b.Note? ==> PlainText(KindOf(b))
  {}

  lemma NumberAndText(key: string, n: nat, other: string, s: string, fields: seq<Member>)
    requires PlainText(key) && PlainText(other) && PlainText(s)
    requires fields == [Member(key, Num(n)), Member(other, Str(s))]
    ensures QuoteSizes(fields) == |key| + |Decimal(n)| + |other| + |s| + 10
  {
    TwoFields(key, Num(n), other, Str(s));
    PlainLength(s);
  }

  lemma ChunkSize(binding: Binding, sequence: nat, data: string)
    requires BindingOk(binding) && PlainText(data)
    ensures |FrameOf(binding, ArchiveChunk(sequence, data))| == |Decimal(sequence)| + |data| + 168
  {
    KindsArePlain(ArchiveChunk(sequence, data));
    FrameSize(binding, ArchiveChunk(sequence, data));
    ChunkFieldsSize(sequence, data, FieldsOf(ArchiveChunk(sequence, data)));
  }

  lemma ChunkFieldsSize(sequence: nat, data: string, fields: seq<Member>)
    requires PlainText(data) && fields == FieldsOf(ArchiveChunk(sequence, data))
    ensures QuoteSizes(fields) == |Decimal(sequence)| + |data| + 22
  {
    var key, other := fields[0].key, fields[1].key;
    assert PlainText(key) && |key| == 8;
    assert PlainText(other) && |other| == 4;
    assert fields == [Member(key, Num(sequence)), Member(other, Str(data))];
    NumberAndText(key, sequence, other, data, fields);
  }

  lemma StartSize(binding: Binding, bytes: nat, sha256: string)
    requires BindingOk(binding) && PlainText(sha256)
    ensures |FrameOf(binding, ArchiveStart(bytes, sha256))| == |Decimal(bytes)| + |sha256| + 167
  {
    KindsArePlain(ArchiveStart(bytes, sha256));
    FrameSize(binding, ArchiveStart(bytes, sha256));
    StartFieldsSize(bytes, sha256, FieldsOf(ArchiveStart(bytes, sha256)));
  }

  lemma StartFieldsSize(bytes: nat, sha256: string, fields: seq<Member>)
    requires PlainText(sha256) && fields == FieldsOf(ArchiveStart(bytes, sha256))
    ensures QuoteSizes(fields) == |Decimal(bytes)| + |sha256| + 21
  {
    var key, other := fields[0].key, fields[1].key;
    assert PlainText(key) && |key| == 5 && PlainText(other) && |other| == 6;
    assert fields == [Member(key, Num(bytes)), Member(other, Str(sha256))];
    NumberAndText(key, bytes, other, sha256, fields);
  }

  lemma EndSize(binding: Binding, sha256: string)
    requires BindingOk(binding) && PlainText(sha256)
    ensures |FrameOf(binding, ArchiveEnd(sha256))| == |sha256| + 156
  {
    KindsArePlain(ArchiveEnd(sha256));
    FrameSize(binding, ArchiveEnd(sha256));
    EndFieldsSize(sha256, FieldsOf(ArchiveEnd(sha256)));
  }

  lemma EndFieldsSize(sha256: string, fields: seq<Member>)
    requires PlainText(sha256) && fields == FieldsOf(ArchiveEnd(sha256))
    ensures QuoteSizes(fields) == |sha256| + 12
  {
    var key := fields[0].key;
    assert PlainText(key) && |key| == 6;
    assert fields == [Member(key, Str(sha256))];
    OneField(key, Str(sha256));
    PlainLength(sha256);
  }

  lemma {:induction false} DigitsLength(n: nat, k: nat, bound: nat)
    requires k >= 1 && n < bound && bound <= Pow10(k)
    ensures |Digits(n)| <= k
    decreases k
  {
    if n >= 10 {
      DigitsLength(n / 10, k - 1, Pow10(k - 1));
    }
  }

  function Pow10(k: nat): nat {
    if k == 0 then 1 else 10 * Pow10(k - 1)
  }

  lemma AlphabetIsPlain(s: string)
    requires forall c :: c in s ==> Base64.InAlphabet(c)
    ensures PlainText(s)
  {
    forall i | 0 <= i < |s|
      ensures Plain(s[i])
    {
      assert Base64.InAlphabet(s[i]);
    }
  }

  lemma SmallNumber(n: nat)
    requires n < 100000000
    ensures |Decimal(n)| <= 8
  {
    assert Pow10(8) == 100000000;
    DigitsLength(n, 8, Pow10(8));
  }

  /** Every archive chunk frame fits the guest's own limit with room to spare. */
  lemma ChunkFits(binding: Binding, digest: seq<Byte> -> string, sendOk: nat -> bool, archive: seq<Byte>, i: nat)
    requires BindingOk(binding) && |archive| < ARCHIVE_LIMIT && i < ChunkCount(|archive|)
    ensures |FrameOf(binding, ChunkBody(archive, i))| < 44000
    ensures Fits(JsonWorld(binding, digest, sendOk), ChunkBody(archive, i))
  {
    var data := Base64.Encode(Slice(archive, i));
    SliceText(Slice(archive, i), data);
    SmallNumber(i);
    ChunkSize(binding, i, data);
  }

  lemma SliceText(slice: seq<Byte>, data: string)
    requires |slice| <= CHUNK_LIMIT && data == Base64.Encode(slice)
    ensures PlainText(data) && |data| <= 43692
  {
    Base64.EncodedShape(slice);
    SliceGroups(|slice|);
    AlphabetIsPlain(data);
  }

  lemma SliceGroups(n: nat)
    requires n <= CHUNK_LIMIT
    ensures (n + 2) / 3 * 4 <= 43692
  {
    assert (n + 2) / 3 <= 10923;
  }

  lemma OtherExportFramesFit(binding: Binding, digest: seq<Byte> -> string, sendOk: nat -> bool,
                             archive: seq<Byte>)
    requires BindingOk(binding) && |archive| < ARCHIVE_LIMIT
    requires PlainText(digest(archive)) && |digest(archive)| == 64
    ensures var w := JsonWorld(binding, digest, sendOk);
      Fits(w, ArchiveStart(|archive|, digest(archive))) && Fits(w, ArchiveEnd(digest(archive)))
  {
    SmallNumber(|archive|);
    StartSize(binding, |archive|, digest(archive));
    EndSize(binding, digest(archive));
  }

  /** The whole export passes the guest's frame limit, whatever the archive holds. */
  lemma ExportFits(binding: Binding, digest: seq<Byte> -> string, sendOk: nat -> bool, archive: seq<Byte>)
    requires BindingOk(binding) && |archive| < ARCHIVE_LIMIT
    requires PlainText(digest(archive)) && |digest(archive)| == 64
    ensures AllFit(JsonWorld(binding, digest, sendOk), ExportBodies(JsonWorld(binding, digest, sendOk), archive))
  {
    var w := JsonWorld(binding, digest, sendOk);
    ExportParts(w, archive);
    OtherExportFramesFit(binding, digest, sendOk, archive);
    forall i | 0 <= i < ChunkCount(|archive|)
      ensures Fits(w, ChunkBodies(archive, ChunkCount(|archive|))[i])
    {
      ChunkFits(binding, digest, sendOk, archive, i);
    }
  }

  lemma AllFitAppend(w: World, a: seq<Body>, b: seq<Body>)
    requires AllFit(w, a) && AllFit(w, b)
    ensures AllFit(w, a + b)
  {
    forall i | 0 <= i < |a + b|
      ensures Fits(w, (a + b)[i])
    {
      if i >= |a| {
        assert (a + b)[i] == b[i - |a|];
      }
    }
  }

  lemma ClaimSize(binding: Binding)
    requires BindingOk(binding)
    ensures |FrameOf(binding, Complete)| <= 200
  {
    KindsArePlain(Complete);
    FrameSize(binding, Complete);
    ClaimFieldsSize(FieldsOf(Complete));
    assert |KindOf(Complete)| == 8;
  }

  lemma ClaimFits(binding: Binding, digest: seq<Byte> -> string, sendOk: nat -> bool)
    requires BindingOk(binding)
    ensures Fits(JsonWorld(binding, digest, sendOk), Complete)
  {
    ClaimSize(binding);
  }

  lemma ClaimFieldsSize(fields: seq<Member>)
    requires fields == FieldsOf(Complete)
    ensures QuoteSizes(fields) == 38
  {
    ClaimKey(fields[0].key);
    FalseSize(fields[0].value);
    OneField(fields[0].key, fields[0].value);
    assert fields == [Member(fields[0].key, fields[0].value)];
  }

  lemma ClaimKey(key: string)
    requires key == "controllerWorkflowsDispatched"
    ensures PlainText(key) && |key| == 29
  {}

  lemma FalseSize(value: Json)
    requires value == Bool(false)
    ensures |Text(value)| == 5
  {}

  /** The end-to-end theorems apply to the JSON frames: a plan is healthy as soon as its notes and its
      observation fit the frame limit, its observation is admissible and its archive has an allowed size. */
  lemma JsonJobIsHealthy(binding: Binding, digest: seq<Byte> -> string, sendOk: nat -> bool, p: Plan)
    requires BindingOk(binding) && (forall n: nat :: sendOk(n))
    requires forall b :: b in p.setup + p.matrix ==>
      b.Note? && b.kind in {"boot", "progress", "heartbeat", "oci-completed", "diagnostic-write-failure"}
    requires |p.observation.forbiddenPathPresent| == 5 && Admissible(binding, p.observation)
    requires 0 < |p.archive| < 67108864 && PlainText(digest(p.archive)) && |digest(p.archive)| == 64
    requires AllFit(JsonWorld(binding, digest, sendOk), p.setup + [HostReady(p.observation)] + p.matrix)
    ensures Healthy(JsonWorld(binding, digest, sendOk), p)
  {
    var w := JsonWorld(binding, digest, sendOk);
    NotesArePlanned(p);
    JsonWorldIsFaithful(binding, digest, sendOk);
    ExportFits(binding, digest, sendOk, p.archive);
    ClaimFits(binding, digest, sendOk);
    var front := p.setup + [HostReady(p.observation)] + p.matrix;
    AllFitAppend(w, front, ExportBodies(w, p.archive));
    AllFitAppend(w, front + ExportBodies(w, p.archive), [Complete]);
  }

  lemma NotesArePlanned(p: Plan)
    requires forall b :: b in p.setup + p.matrix ==>
      b.Note? && b.kind in {"boot", "progress", "heartbeat", "oci-completed", "diagnostic-write-failure"}
    requires |p.observation.forbiddenPathPresent| == 5
    ensures PlanOk(p)
  {
    assert forall b :: b in p.setup ==> b in p.setup + p.matrix;
    assert forall b :: b in p.matrix ==> b in p.setup + p.matrix;
  }

  // ----- Failure reports -----

  lemma FailureSize(binding: Binding, error: string, traceback: string)
    requires BindingOk(binding)
    ensures |FrameOf(binding, Failure(error, traceback))| == |EscapeAll(error)| + |EscapeAll(traceback)| + 166
  {
    KindsArePlain(Failure(error, traceback));
    FrameSize(binding, Failure(error, traceback));
    FailureFieldsSize(error, traceback, FieldsOf(Failure(error, traceback)));
  }

  lemma FailureFieldsSize(error: string, traceback: string, fields: seq<Member>)
    requires fields == FieldsOf(Failure(error, traceback))
    ensures QuoteSizes(fields) == |EscapeAll(error)| + |EscapeAll(traceback)| + 26
  {
    var key, other := fields[0].key, fields[1].key;
    assert PlainText(key) && PlainText(other) && |key| == 5 && |other| == 9;
    assert fields == [Member(key, Str(error)), Member(other, Str(traceback))];
    TwoStrings(key, error, other, traceback);
  }

  lemma TwoStrings(key: string, s: string, other: string, r: string)
    requires PlainText(key) && PlainText(other)
    ensures QuoteSizes([Member(key, Str(s)), Member(other, Str(r))])
         == |key| + |EscapeAll(s)| + |other| + |EscapeAll(r)| + 12
  {
    QuotedSize(s);
    QuotedSize(r);
    TwoFields(key, Str(s), other, Str(r));
  }

  lemma QuotedSize(s: string)
    ensures |Text(Str(s))| == |EscapeAll(s)| + 2
  {}

  predicate Basic(s: string) {
    forall i :: 0 <= i < |s| ==> s[i] as int < 0x10000
  }

  lemma {:induction false} EscapedLength(s: string)
    ensures |s| <= |EscapeAll(s)| <= 12 * |s|
    ensures Basic(s) ==> |EscapeAll(s)| <= 6 * |s|
    decreases |s|
  {
    if s != "" {
      EscapeForms(s[0]);
      EscapedLength(s[1..]);
      assert Basic(s) ==> s[0] as int < 0x10000 && Basic(s[1..]);
    }
  }

  /** A failure report fits its frame exactly when its escaped texts leave room for the rest of the frame. */
  lemma FailureFitsIff(binding: Binding, digest: seq<Byte> -> string, sendOk: nat -> bool, error: string,
                       traceback: string)
    requires BindingOk(binding)
    ensures Fits(JsonWorld(binding, digest, sendOk), Failure(error, traceback))
       <==> |EscapeAll(error)| + |EscapeAll(traceback)| + 167 < FRAME_LIMIT
  {
    FailureSize(binding, error, traceback);
  }

  /** Cut to 8000 and 16000 characters, texts of the basic plane always fit. */
  lemma BasicFailureFits(binding: Binding, digest: seq<Byte> -> string, sendOk: nat -> bool, t: Trouble)
    requires BindingOk(binding) && Basic(t.error) && Basic(t.traceback)
    ensures Fits(JsonWorld(binding, digest, sendOk), ReportBodies(t)[0])
  {
    var error, traceback := Last(t.error, ERROR_LIMIT), Last(t.traceback, TRACEBACK_LIMIT);
    EscapedLength(error);
    EscapedLength(traceback);
    FailureFitsIff(binding, digest, sendOk, error, traceback);
  }

  function Repeat(c: char, n: nat): (s: string)
    ensures |s| == n && forall i :: 0 <= i < n ==> s[i] == c
  {
    seq(n, i => c)
  }

  lemma {:induction false} AstralLength(n: nat)
    ensures |EscapeAll(Repeat('\U{1F600}', n))| == 12 * n
    decreases n
  {
    if n > 0 {
      EscapeForms('\U{1F600}');
      AstralLength(n - 1);
      assert Repeat('\U{1F600}', n)[1..] == Repeat('\U{1F600}', n - 1);
    }
  }

  /** An exception whose texts are characters beyond the basic plane. */
  function Astral(): Trouble {
    Trouble(Repeat('\U{1F600}', TRACEBACK_LIMIT), Repeat('\U{1F600}', TRACEBACK_LIMIT), None, [])
  }

  lemma AstralReport(binding: Binding, digest: seq<Byte> -> string, sendOk: nat -> bool)
    requires BindingOk(binding)
    ensures !Fits(JsonWorld(binding, digest, sendOk), ReportBodies(Astral())[0])
  {
    var text := Repeat('\U{1F600}', TRACEBACK_LIMIT);
    assert Last(text, ERROR_LIMIT) == Repeat('\U{1F600}', ERROR_LIMIT) && Last(text, TRACEBACK_LIMIT) == text;
    AstralLength(ERROR_LIMIT);
    AstralLength(TRACEBACK_LIMIT);
    FailureFitsIff(binding, digest, sendOk, Last(text, ERROR_LIMIT), text);
  }

  /** A handler whose report does not fit raises at once and is over. */
  lemma UnfitReport(w: World, s: Sys, t: Trouble)
    requires s.guest.mode.Main? && Enabled(s, GuestCrash(t)) && !Fits(w, ReportBodies(t)[0])
    ensures var next := Apply(w, Apply(w, s, GuestCrash(t)), GuestAdvance(t));
      && Finished(next) && !next.guest.mode.Main? && History(next.guest) == History(s.guest)
      && next.up == s.up && next.host == s.host
  {
    var handler := Crash(w, s.guest, t);
    assert handler.script[0] == Send(ReportBodies(t)[0]);
    CrashKeepsHistory(w, s.guest, t);
    CrashKeepsHistory(w, handler, t);
  }

  lemma TwoSteps(w: World, p: Plan, steps: seq<Step>, a: Step, b: Step)
    ensures Exec(w, p, steps + [a, b]) == Apply(w, Apply(w, Exec(w, p, steps), a), b)
  {
    assert steps + [a, b] == steps + [a] + [b];
    ExecNext(w, p, steps + [a], b);
    ExecNext(w, p, steps, a);
  }

  /** "The handler always reports the failure" is false: a traceback of characters beyond the basic plane survives
      the cut and still exceeds the frame. In any run, wherever the try block can raise, the handler's own send
      then raises and the guest ends without another message. */
  lemma FailureTooLongToReport(binding: Binding, digest: seq<Byte> -> string, sendOk: nat -> bool, p: Plan,
                               steps: seq<Step>)
    requires BindingOk(binding)
    requires var s := Exec(JsonWorld(binding, digest, sendOk), p, steps);
      s.guest.mode.Main? && Enabled(s, GuestCrash(Astral()))
    ensures var w := JsonWorld(binding, digest, sendOk);
      var s, next := Exec(w, p, steps), Exec(w, p, steps + [GuestCrash(Astral()), GuestAdvance(Astral())]);
      && Finished(next) && !next.guest.mode.Main? && History(next.guest) == History(s.guest)
      && next.up == s.up && next.host == s.host
  {
    var w := JsonWorld(binding, digest, sendOk);
    AstralReport(binding, digest, sendOk);
    UnfitReport(w, Exec(w, p, steps), Astral());
    TwoSteps(w, p, steps, GuestCrash(Astral()), GuestAdvance(Astral()));
  }

  /** The coordinator may never hear of it: right after the guest's first message, `boot`, the reading of a manifest
      can raise so, and then that message is all it gets. */
  lemma SilentGuest(binding: Binding, digest: seq<Byte> -> string, sendOk: nat -> bool, p: Plan)
    requires BindingOk(binding) && p.setup != [] && Fits(JsonWorld(binding, digest, sendOk), p.setup[0])
    ensures var w := JsonWorld(binding, digest, sendOk);
      var line := Line(w.text(p.setup[0]));
      var booted := [GuestAdvance(Astral()), GuestWrite(|line|)];
      var s := Exec(w, p, booted + [GuestCrash(Astral()), GuestAdvance(Astral())]);
      Finished(s) && History(s.guest) == [p.setup[0]] && s.up == line && s.host == IDLE
  {
    var w := JsonWorld(binding, digest, sendOk);
    var line := Line(w.text(p.setup[0]));
    var booted := [GuestAdvance(Astral()), GuestWrite(|line|)];
    Booted(w, p, Astral());
    FailureTooLongToReport(binding, digest, sendOk, p, booted);
  }

  /** The state after the first message. */
  lemma Booted(w: World, p: Plan, t: Trouble)
    requires p.setup != [] && Fits(w, p.setup[0])
    ensures var line := Line(w.text(p.setup[0]));
      var s := Exec(w, p, [GuestAdvance(t), GuestWrite(|line|)]);
      && s.guest.mode.Main? && Enabled(s, GuestCrash(t)) && History(s.guest) == [p.setup[0]]
      && s.up == line && s.host == IDLE
  {
    var line := Line(w.text(p.setup[0]));
    var none: seq<Step> := [];
    TwoSteps(w, p, none, GuestAdvance(t), GuestWrite(|line|));
    assert none + [GuestAdvance(t), GuestWrite(|line|)] == [GuestAdvance(t), GuestWrite(|line|)];
    FirstTwo(w, p);
    var g := Start(w, p).guest;
    NextHistory(g);
    assert g.script[..0] == [] && History(g) == [];
    SameHistory(g.Next(), Exec(w, p, [GuestAdvance(t), GuestWrite(|line|)]).guest);
    assert line[..|line|] == line && [] + line == line;
  }

  lemma FirstTwo(w: World, p: Plan)
    requires p.setup != []
    ensures |MainScript(w, p)| >= 2 && MainScript(w, p)[0] == Send(p.setup[0]) && !MainScript(w, p)[1].Receive?
  {}

  // ----- The stray failure, in JSON -----

  lemma {:induction false} JoinLength(lines: seq<seq<Byte>>, bound: nat)
    requires forall i :: 0 <= i < |lines| ==> |lines[i]| <= bound
    ensures |Join(lines)| <= |lines| * (bound + 1)
    decreases |lines|
  {
    if lines != [] {
      JoinLength(lines[1..], bound);
      assert |lines| * (bound + 1) == (bound + 1) + (|lines| - 1) * (bound + 1);
    }
  }

  lemma LateFailureSize(binding: Binding, sha256: string, b: Body)
    requires BindingOk(binding) && PlainText(sha256) && |sha256| == 64
    requires b in [ArchiveStart(1, sha256), ArchiveChunk(0, Base64.Encode([7])), ArchiveEnd(sha256), Complete,
                   Failure("late", "late")]
    ensures |FrameOf(binding, b)| <= 1000
  {
    match b {
      case ArchiveStart(_, _) =>
        SmallNumber(1);
        StartSize(binding, 1, sha256);
      case ArchiveChunk(_, _) => LateChunkSize(binding);
      case ArchiveEnd(_) => EndSize(binding, sha256);
      case Complete => ClaimSize(binding);
      case Failure(error, _) =>
        assert |error| == 4;
        EscapedLength(error);
        FailureSize(binding, error, error);
    }
  }

  lemma LateChunkSize(binding: Binding)
    requires BindingOk(binding)
    ensures |FrameOf(binding, ArchiveChunk(0, Base64.Encode([7])))| <= 1000
  {
    var data := Base64.Encode([7]);
    Base64.EncodedShape([7]);
    AlphabetIsPlain(data);
    SmallNumber(0);
    ChunkSize(binding, 0, data);
  }

  lemma LateFailureFits(binding: Binding, digest: seq<Byte> -> string, sendOk: nat -> bool)
    requires BindingOk(binding) && PlainText(digest([7])) && |digest([7])| == 64
    ensures var w := JsonWorld(binding, digest, sendOk); |Join(Texts(w, HostVerdict.LateFailure(w)))| <= READ_LIMIT
  {
    var w := JsonWorld(binding, digest, sendOk);
    var bodies := HostVerdict.LateFailure(w);
    forall i | 0 <= i < |bodies|
      ensures |Texts(w, bodies)[i]| <= 1000
    {
      LateFailureSize(binding, digest([7]), bodies[i]);
    }
    assert |Texts(w, bodies)| == 5;
    JoinLength(Texts(w, bodies), 1000);
  }

  /** The counterexample is real: as JSON it fits one read, the coordinator takes it whole, and the status
      stays at success with a failure reported and no admission sent. */
  lemma SuccessDespiteFailureInJson(binding: Binding, digest: seq<Byte> -> string, sendOk: nat -> bool)
    requires BindingOk(binding) && (forall n: nat :: sendOk(n))
    requires PlainText(digest([7])) && |digest([7])| == 64
    ensures var w := JsonWorld(binding, digest, sendOk);
      var stream := Join(Texts(w, HostVerdict.LateFailure(w)));
      && |stream| <= READ_LIMIT
      && Run(w, IDLE, [stream]).job.report.status == Observed && Run(w, IDLE, [stream]).job.failed
  {
    var w := JsonWorld(binding, digest, sendOk);
    JsonWorldIsFaithful(binding, digest, sendOk);
    LateFailureFits(binding, digest, sendOk);
    HostVerdict.SuccessDespiteFailure(w);
  }
}
