/** The frames as JSON text: what each message says, that the coordinator reads it back, and so a concrete instance of
    everything the channel proofs assume of texts. */
module FrameText {
  import opened Framing
  import opened Wrappers
  import opened Counting
  import opened HostJob
  import opened JobChannel
  import opened Ascii
  import opened JsonText
  import opened JsonReading
  import opened JsonNesting
  import opened FrameReading
  import opened TornWrite

  // ----- Bodies as JSON -----

  function KindOf(b: Body): string {
    match b
    case HostReady(_) => "host-ready"
    case ArchiveStart(_, _) => "archive-start"
    case ArchiveChunk(_, _) => "archive-chunk"
    case ArchiveEnd(_) => "archive-end"
    case Failure(_, _) => "failure"
    case ExportFailure(_) => "export-failure"
    case Complete => "complete"
    case Note(kind, _) => kind
  }

  function StringItems(items: seq<string>): seq<Json> {
    if items == [] then [] else [Str(items[0])] + StringItems(items[1..])
  }

  function ImageItems(ids: seq<string>): seq<Json> {
    if ids == [] then [] else [Obj([Member("Id", Str(ids[0]))])] + ImageItems(ids[1..])
  }

  function SourceFields(s: Source): seq<Member> {
    [Member("commit", Str(s.commit)), Member("tree", Str(s.tree)), Member("status", Str(s.status)),
     Member("privateRefs", Str(s.privateRefs))]
  }

  function DockerFields(version: string): seq<Member> {
    [Member("Server", Obj([Member("Version", Str(version))]))]
  }

  /** The paths that must not be there, and whether each is. */
  function ForbiddenFields(present: seq<bool>): seq<Member>
    requires |present| == FORBIDDEN_COUNT
  {
    [Member("/mnt/c", Bool(present[0])), Member("/mnt/wsl", Bool(present[1])),
     Member("/home/duncan/.ssh", Bool(present[2])), Member("/root/.ssh", Bool(present[3])),
     Member("/work/source/artifacts/orchestrator/state/state.json", Bool(present[4]))]
  }

  function ObservationFields(o: Observation): seq<Member> {
    [Member("platform", Str(o.platform)), Member("networkInterfaces", Arr(StringItems(o.networkInterfaces))),
     Member("nodeVersion", Str(o.nodeVersion)), Member("pnpmVersion", Str(o.pnpmVersion)),
     Member("dockerVersion", Obj(DockerFields(o.dockerServerVersion))), Member("image", Arr(ImageItems(o.imageIds))),
     Member("source", Obj(SourceFields(o.source))),
     Member("forbiddenPaths",
            if |o.forbiddenPathPresent| == FORBIDDEN_COUNT then Obj(ForbiddenFields(o.forbiddenPathPresent)) else Null),
     Member("cgroupControllers", Arr(StringItems(o.cgroupControllers)))]
  }

  function FieldsOf(b: Body): seq<Member> {
    match b
    case HostReady(o) => [Member("observation", Obj(ObservationFields(o)))]
    case ArchiveStart(bytes, sha256) => [Member("bytes", Num(bytes)), Member("sha256", Str(sha256))]
    case ArchiveChunk(sequence, data) => [Member("sequence", Num(sequence)), Member("data", Str(data))]
    case ArchiveEnd(sha256) => [Member("sha256", Str(sha256))]
    case Failure(error, traceback) => [Member("error", Str(error)), Member("traceback", Str(traceback))]
    case ExportFailure(error) => [Member("error", Str(error))]
    case Complete => [Member("controllerWorkflowsDispatched", Bool(false))]
    case Note(kind, detail) => [Member(NoteKey(kind), Str(detail))]
  }

  function Header(binding: Binding, kind: string): seq<Member> {
    [Member("kind", Str(kind)), Member("runId", Str(binding.runId)), Member("nonce", Str(binding.nonce))]
  }

  function FrameMembers(binding: Binding, b: Body): seq<Member> {
    Header(binding, KindOf(b)) + FieldsOf(b)
  }

  function ToJson(binding: Binding, b: Body): Json {
    Obj(FrameMembers(binding, b))
  }

  function FrameOf(binding: Binding, b: Body): (line: seq<Byte>)
    ensures LF !in line
  {
    Encode(Text(ToJson(binding, b)))
  }

  // ----- Finding the fields -----

  /** Keys told apart by their first two characters. */
  ghost predicate Apart(members: seq<Member>) {
    forall i, j :: 0 <= i < j < |members| ==> KeysApart(members[i].key, members[j].key)
  }

  predicate KeysApart(a: string, b: string) {
    |a| >= 2 && |b| >= 2 && (a[0] != b[0] || a[1] != b[1])
  }

  lemma ApartIsDistinct(members: seq<Member>)
    requires Apart(members)
    ensures DistinctBy(members, MemberKey)
  {
    forall i, j | 0 <= i < j < |members|
      ensures MemberKey(members[i]) != MemberKey(members[j])
    {
      assert KeysApart(members[i].key, members[j].key);
    }
  }

  lemma FieldAt(members: seq<Member>, i: nat)
    requires Apart(members) && i < |members|
    ensures Field(members, members[i].key) == Some(members[i].value)
  {
    ApartIsDistinct(members);
    LastWithDistinct(members, MemberKey, i);
  }

  lemma OneMore(front: seq<Member>, m: Member)
    requires Apart(front) && forall i :: 0 <= i < |front| ==> KeysApart(front[i].key, m.key)
    ensures Apart(front + [m])
  {}

  lemma HeaderIsApart(binding: Binding, kind: string)
    ensures Apart(Header(binding, kind))
  {
    assert KeysApart("kind", "runId") && KeysApart("kind", "nonce") && KeysApart("runId", "nonce");
  }

  lemma OneFieldApart(binding: Binding, kind: string, m: Member)
    requires KeysApart("kind", m.key) && KeysApart("runId", m.key) && KeysApart("nonce", m.key)
    ensures Apart(Header(binding, kind) + [m])
  {
    HeaderIsApart(binding, kind);
    OneMore(Header(binding, kind), m);
  }

  lemma TwoFieldsApart(binding: Binding, kind: string, m: Member, n: Member)
    requires KeysApart("kind", m.key) && KeysApart("runId", m.key) && KeysApart("nonce", m.key)
    requires KeysApart("kind", n.key) && KeysApart("runId", n.key) && KeysApart("nonce", n.key)
    requires KeysApart(m.key, n.key)
    ensures Apart(Header(binding, kind) + [m, n])
  {
    OneFieldApart(binding, kind, m);
    OneMore(Header(binding, kind) + [m], n);
    assert Header(binding, kind) + [m] + [n] == Header(binding, kind) + [m, n];
  }

  lemma FrameIsApart(binding: Binding, b: Body)
    ensures Apart(FrameMembers(binding, b))
  {
    var f, kind := FieldsOf(b), KindOf(b);
    match b {
      case ArchiveStart(_, _) => TwoFieldsApart(binding, kind, f[0], f[1]);
      case ArchiveChunk(_, _) => TwoFieldsApart(binding, kind, f[0], f[1]);
      case Failure(_, _) => TwoFieldsApart(binding, kind, f[0], f[1]);
      case HostReady(_) => OneFieldApart(binding, kind, f[0]);
      case ArchiveEnd(_) => OneFieldApart(binding, kind, f[0]);
      case ExportFailure(_) => OneFieldApart(binding, kind, f[0]);
      case Complete => OneFieldApart(binding, kind, f[0]);
      case Note(_, _) =>
        NoteKeyApart(kind);
        OneFieldApart(binding, kind, f[0]);
    }
  }

  lemma NoteKeyApart(kind: string)
    ensures KeysApart("kind", NoteKey(kind)) && KeysApart("runId", NoteKey(kind)) && KeysApart("nonce", NoteKey(kind))
  {}

  /** Every member is found by its key. */
  lemma FrameField(binding: Binding, b: Body, i: nat)
    requires i < |FrameMembers(binding, b)|
    ensures var m := FrameMembers(binding, b)[i]; Field(FrameMembers(binding, b), m.key) == Some(m.value)
  {
    FrameIsApart(binding, b);
    FieldAt(FrameMembers(binding, b), i);
  }

  // ----- What a frame says -----

  lemma CharactersBack(t: string)
    requires Printable(t)
    ensures (forall i :: 0 <= i < |Encode(t)| ==> Encode(t)[i] < 128) && Characters(Encode(t)) == t
  {}

  /** The bytes of a frame are JSON for its members. */
  lemma FrameIsRead(binding: Binding, b: Body)
    ensures LineObject(FrameOf(binding, b)) == Some(FrameMembers(binding, b))
  {
    CharactersBack(Text(ToJson(binding, b)));
    JsonBack(ToJson(binding, b));
  }

  lemma HeaderSays(binding: Binding, b: Body)
    ensures var ms := FrameMembers(binding, b);
      Field(ms, "kind") == Some(Str(KindOf(b))) && Field(ms, "runId") == Some(Str(binding.runId))
      && Field(ms, "nonce") == Some(Str(binding.nonce))
  {
    FrameField(binding, b, 0);
    FrameField(binding, b, 1);
    FrameField(binding, b, 2);
  }

  lemma FieldsSay(binding: Binding, b: Body, i: nat)
    requires i < |FieldsOf(b)|
    ensures Field(FrameMembers(binding, b), FieldsOf(b)[i].key) == Some(FieldsOf(b)[i].value)
  {
    FrameField(binding, b, 3 + i);
    assert FrameMembers(binding, b)[3 + i] == FieldsOf(b)[i];
  }

  /** What each frame says, in the words of the guest: its kind, the run's id and nonce, and the values of the
      message under their names. */
  lemma FrameSays(binding: Binding, b: Body)
    ensures LineObject(FrameOf(binding, b)).Some?
    ensures var ms := LineObject(FrameOf(binding, b)).value;
      && Field(ms, "runId") == Some(Str(binding.runId)) && Field(ms, "nonce") == Some(Str(binding.nonce))
      && match b
         case HostReady(o) =>
           Field(ms, "kind") == Some(Str("host-ready")) && Field(ms, "observation") == Some(Obj(ObservationFields(o)))
         case ArchiveStart(bytes, sha256) =>
           Field(ms, "kind") == Some(Str("archive-start")) && Field(ms, "bytes") == Some(Num(bytes))
           && Field(ms, "sha256") == Some(Str(sha256))
         case ArchiveChunk(sequence, data) =>
           Field(ms, "kind") == Some(Str("archive-chunk")) && Field(ms, "sequence") == Some(Num(sequence))
           && Field(ms, "data") == Some(Str(data))
         case ArchiveEnd(sha256) =>
           Field(ms, "kind") == Some(Str("archive-end")) && Field(ms, "sha256") == Some(Str(sha256))
         case Failure(error, traceback) =>
           Field(ms, "kind") == Some(Str("failure")) && Field(ms, "error") == Some(Str(error))
           && Field(ms, "traceback") == Some(Str(traceback))
         case ExportFailure(error) =>
           Field(ms, "kind") == Some(Str("export-failure")) && Field(ms, "error") == Some(Str(error))
         case Complete =>
           Field(ms, "kind") == Some(Str("complete")) && Field(ms, "controllerWorkflowsDispatched") == Some(Bool(false))
         case Note(kind, detail) =>
           Field(ms, "kind") == Some(Str(kind))
           && Field(ms, if kind == "boot" then "bootId" else if kind == "oci-completed" then "containers"
                        else if kind == "diagnostic-write-failure" then "error" else "phase") == Some(Str(detail))
  {
    FrameIsRead(binding, b);
    HeaderSays(binding, b);
    FieldsSay(binding, b, 0);
    if |FieldsOf(b)| > 1 {
      FieldsSay(binding, b, 1);
    }
  }

  // ----- What an observation says -----

  lemma {:induction false} EachString(items: seq<string>)
    ensures Each(StringItems(items), StringOf) == Some(items)
    decreases |items|
  {
    if items != [] {
      EachString(items[1..]);
      assert StringItems(items)[1..] == StringItems(items[1..]);
      assert items == [items[0]] + items[1..];
    }
  }

  lemma {:induction false} EachId(ids: seq<string>)
    ensures Each(ImageItems(ids), IdOf) == Some(ids)
    decreases |ids|
  {
    if ids != [] {
      EachId(ids[1..]);
      OneFieldRead("Id", Str(ids[0]));
      assert ImageItems(ids)[1..] == ImageItems(ids[1..]);
      assert ids == [ids[0]] + ids[1..];
    }
  }

  lemma OneFieldRead(key: string, v: Json)
    ensures Field([Member(key, v)], key) == Some(v)
  {}

  lemma ServerRead(members: seq<Member>, version: string)
    requires Field(members, "dockerVersion") == Some(Obj(DockerFields(version)))
    ensures ServerVersion(members) == Some(version)
  {
    OneFieldRead("Version", Str(version));
    OneFieldRead("Server", Obj([Member("Version", Str(version))]));
  }

  lemma SourceRead(s: Source)
    ensures ReadSource(SourceFields(s)) == Some(s)
  {
    var fields := SourceFields(s);
    assert KeysApart("commit", "tree") && KeysApart("commit", "status") && KeysApart("commit", "privateRefs");
    assert KeysApart("tree", "status") && KeysApart("tree", "privateRefs") && KeysApart("status", "privateRefs");
    assert Apart(fields);
    FieldAt(fields, 0);
    FieldAt(fields, 1);
    FieldAt(fields, 2);
    FieldAt(fields, 3);
  }

  lemma {:induction false} AllValues(members: seq<Member>)
    requires DistinctBy(members, MemberKey)
    ensures |Values(members)| == |members| && forall i :: 0 <= i < |members| ==> Values(members)[i] == members[i].value
    decreases |members|
  {
    if members != [] {
      assert forall i :: 0 < i < |members| ==> MemberKey(members[i]) != MemberKey(members[0]);
      AllValues(members[1..]);
    }
  }

  lemma {:induction false} EachTruth(items: seq<Json>, truths: seq<bool>)
    requires |items| == |truths| && forall i :: 0 <= i < |items| ==> items[i] == Bool(truths[i])
    ensures Each(items, TruthOf) == Some(truths)
    decreases |items|
  {
    if items != [] {
      EachTruth(items[1..], truths[1..]);
      assert truths == [truths[0]] + truths[1..];
    }
  }

  lemma ForbiddenRead(present: seq<bool>)
    requires |present| == FORBIDDEN_COUNT
    ensures Each(Values(ForbiddenFields(present)), TruthOf) == Some(present)
  {
    var fields := ForbiddenFields(present);
    assert |fields[0].key| == 6 && |fields[1].key| == 8 && |fields[2].key| == 17;
    assert |fields[3].key| == 10 && |fields[4].key| == 52;
    forall i, j | 0 <= i < j < |fields|
      ensures MemberKey(fields[i]) != MemberKey(fields[j])
    {
      assert |fields[i].key| != |fields[j].key|;
    }
    AllValues(fields);
    EachTruth(Values(fields), present);
  }

  lemma ObservationIsApart(o: Observation)
    ensures Apart(ObservationFields(o))
  {
    var f := ObservationFields(o);
    var starts := ["pl", "ne", "no", "pn", "do", "im", "so", "fo", "cg"];
    assert |f| == |starts|;
    forall i | 0 <= i < |f|
      ensures |f[i].key| >= 2 && f[i].key[0] == starts[i][0] && f[i].key[1] == starts[i][1]
    {}
    assert forall i, j :: 0 <= i < j < |starts| ==> KeysApart(starts[i], starts[j]);
  }

  lemma ObservationField(o: Observation, i: nat)
    requires i < |ObservationFields(o)|
    ensures Field(ObservationFields(o), ObservationFields(o)[i].key) == Some(ObservationFields(o)[i].value)
  {
    ObservationIsApart(o);
    FieldAt(ObservationFields(o), i);
  }

  lemma PlatformSays(o: Observation)
    ensures var ms := ObservationFields(o);
      && Field(ms, "platform") == Some(Str(o.platform))
      && Field(ms, "networkInterfaces") == Some(Arr(StringItems(o.networkInterfaces)))
      && Field(ms, "cgroupControllers") == Some(Arr(StringItems(o.cgroupControllers)))
  {
    ObservationField(o, 0);
    ObservationField(o, 1);
    ObservationField(o, 8);
  }

  lemma VersionsSay(o: Observation)
    ensures var ms := ObservationFields(o);
      && Field(ms, "nodeVersion") == Some(Str(o.nodeVersion)) && Field(ms, "pnpmVersion") == Some(Str(o.pnpmVersion))
      && Field(ms, "dockerVersion") == Some(Obj(DockerFields(o.dockerServerVersion)))
  {
    ObservationField(o, 2);
    ObservationField(o, 3);
    ObservationField(o, 4);
  }

  lemma InputsSay(o: Observation)
    ensures var ms := ObservationFields(o);
      && Field(ms, "image") == Some(Arr(ImageItems(o.imageIds)))
      && Field(ms, "source") == Some(Obj(SourceFields(o.source)))
      && (|o.forbiddenPathPresent| == FORBIDDEN_COUNT ==>
            Field(ms, "forbiddenPaths") == Some(Obj(ForbiddenFields(o.forbiddenPathPresent))))
  {
    ObservationField(o, 5);
    ObservationField(o, 6);
    ObservationField(o, 7);
  }

  /** What an observation says, name by name. */
  lemma ObservationSays(o: Observation)
    requires |o.forbiddenPathPresent| == FORBIDDEN_COUNT
    ensures var ms := ObservationFields(o);
      && Field(ms, "platform") == Some(Str(o.platform))
      && (exists items :: Field(ms, "networkInterfaces") == Some(Arr(items)) && AreStrings(items, o.networkInterfaces))
      && Field(ms, "nodeVersion") == Some(Str(o.nodeVersion)) && Field(ms, "pnpmVersion") == Some(Str(o.pnpmVersion))
      && Field(ms, "dockerVersion")
         == Some(Obj([Member("Server", Obj([Member("Version", Str(o.dockerServerVersion))]))]))
      && (exists items :: Field(ms, "image") == Some(Arr(items)) && |items| == |o.imageIds|
                          && forall i :: 0 <= i < |items| ==> items[i] == Obj([Member("Id", Str(o.imageIds[i]))]))
      && Field(ms, "source")
         == Some(Obj([Member("commit", Str(o.source.commit)), Member("tree", Str(o.source.tree)),
                      Member("status", Str(o.source.status)), Member("privateRefs", Str(o.source.privateRefs))]))
      && Field(ms, "forbiddenPaths")
         == Some(Obj([Member("/mnt/c", Bool(o.forbiddenPathPresent[0])),
                      Member("/mnt/wsl", Bool(o.forbiddenPathPresent[1])),
                      Member("/home/duncan/.ssh", Bool(o.forbiddenPathPresent[2])),
                      Member("/root/.ssh", Bool(o.forbiddenPathPresent[3])),
                      Member("/work/source/artifacts/orchestrator/state/state.json",
                             Bool(o.forbiddenPathPresent[4]))]))
      && (exists items :: Field(ms, "cgroupControllers") == Some(Arr(items)) && AreStrings(items, o.cgroupControllers))
  {
    PlatformSays(o);
    VersionsSay(o);
    InputsSay(o);
    StringItemsAre(o.networkInterfaces);
    StringItemsAre(o.cgroupControllers);
    ImageItemsAre(o.imageIds);
  }

  ghost predicate AreStrings(items: seq<Json>, strings: seq<string>) {
    |items| == |strings| && forall i :: 0 <= i < |items| ==> items[i] == Str(strings[i])
  }

  lemma {:induction false} StringItemsAre(strings: seq<string>)
    ensures AreStrings(StringItems(strings), strings)
    decreases |strings|
  {
    if strings != [] {
      StringItemsAre(strings[1..]);
    }
  }

  lemma {:induction false} ImageItemsAre(ids: seq<string>)
    ensures |ImageItems(ids)| == |ids|
    ensures forall i :: 0 <= i < |ids| ==> ImageItems(ids)[i] == Obj([Member("Id", Str(ids[i]))])
    decreases |ids|
  {
    if ids != [] {
      ImageItemsAre(ids[1..]);
    }
  }

  /** Every field of an observation is read back. */
  lemma ObservationRead(o: Observation)
    requires |o.forbiddenPathPresent| == FORBIDDEN_COUNT
    ensures ReadObservation(ObservationFields(o)) == Some(o)
  {
    var ms := ObservationFields(o);
    PlatformRead(o, ms);
    VersionsRead(o, ms);
    InputsRead(o, ms);
  }

  lemma PlatformRead(o: Observation, ms: seq<Member>)
    requires ms == ObservationFields(o)
    ensures TextField(ms, "platform") == Some(o.platform)
    ensures Strings(ArrayField(ms, "networkInterfaces")) == Some(o.networkInterfaces)
    ensures Strings(ArrayField(ms, "cgroupControllers")) == Some(o.cgroupControllers)
  {
    PlatformSays(o);
    EachString(o.networkInterfaces);
    EachString(o.cgroupControllers);
  }

  lemma VersionsRead(o: Observation, ms: seq<Member>)
    requires ms == ObservationFields(o)
    ensures TextField(ms, "nodeVersion") == Some(o.nodeVersion) && TextField(ms, "pnpmVersion") == Some(o.pnpmVersion)
    ensures ServerVersion(ms) == Some(o.dockerServerVersion)
  {
    VersionsSay(o);
    ServerRead(ms, o.dockerServerVersion);
  }

  lemma InputsRead(o: Observation, ms: seq<Member>)
    requires ms == ObservationFields(o) && |o.forbiddenPathPresent| == FORBIDDEN_COUNT
    ensures ImageIds(ms) == Some(o.imageIds) && SourceOf(ms) == Some(o.source)
    ensures ForbiddenPaths(ms) == Some(o.forbiddenPathPresent)
  {
    InputsSay(o);
    EachId(o.imageIds);
    SourceRead(o.source);
    ForbiddenRead(o.forbiddenPathPresent);
  }

  // ----- Frames are read back -----

  lemma BodyRead(binding: Binding, b: Body)
    requires Sendable(b)
    ensures ReadBody(KindOf(b), FrameMembers(binding, b)) == Some(b)
  {
    forall i | 0 <= i < |FieldsOf(b)|
      ensures Field(FrameMembers(binding, b), FieldsOf(b)[i].key) == Some(FieldsOf(b)[i].value)
    {
      FieldsSay(binding, b, i);
    }
    BodyOf(b, FrameMembers(binding, b));
  }

  lemma BodyOf(b: Body, ms: seq<Member>)
    requires Sendable(b)
    requires forall i :: 0 <= i < |FieldsOf(b)| ==> Field(ms, FieldsOf(b)[i].key) == Some(FieldsOf(b)[i].value)
    ensures ReadBody(KindOf(b), ms) == Some(b)
  {
    if b.ArchiveStart? || b.ArchiveChunk? || b.Failure? {
      TwoFieldsRead(b, ms);
    } else {
      OneFieldBodyRead(b, ms);
    }
  }

  lemma TwoFieldsRead(b: Body, ms: seq<Member>)
    requires |FieldsOf(b)| == 2
    requires forall i :: 0 <= i < 2 ==> Field(ms, FieldsOf(b)[i].key) == Some(FieldsOf(b)[i].value)
    ensures ReadBody(KindOf(b), ms) == Some(b)
  {
    var f := FieldsOf(b);
    assert Field(ms, f[0].key) == Some(f[0].value) && Field(ms, f[1].key) == Some(f[1].value);
    match b {
      case ArchiveStart(bytes, sha256) => AnnouncementRead(ms, bytes, sha256);
      case ArchiveChunk(sequence, data) => ChunkRead(ms, sequence, data);
      case Failure(error, traceback) => FailureRead(ms, error, traceback);
    }
  }

  lemma OneFieldBodyRead(b: Body, ms: seq<Member>)
    requires Sendable(b) && |FieldsOf(b)| == 1
    requires Field(ms, FieldsOf(b)[0].key) == Some(FieldsOf(b)[0].value)
    ensures ReadBody(KindOf(b), ms) == Some(b)
  {
    match b {
      case HostReady(o) =>
        ObservationRead(o);
        AnObservationRead(ms, ObservationFields(o), o);
      case ArchiveEnd(sha256) => EndRead(ms, sha256);
      case ExportFailure(error) => SecondFailureRead(ms, error);
      case Complete => ClaimRead(ms);
      case Note(kind, detail) => NoteRead(ms, kind, detail);
    }
  }

  lemma AnObservationRead(ms: seq<Member>, inner: seq<Member>, o: Observation)
    requires Field(ms, "observation") == Some(Obj(inner)) && ReadObservation(inner) == Some(o)
    ensures ReadBody("host-ready", ms) == Some(HostReady(o))
  {}

  lemma AnnouncementRead(ms: seq<Member>, bytes: int, sha256: string)
    requires Field(ms, "bytes") == Some(Num(bytes)) && Field(ms, "sha256") == Some(Str(sha256))
    ensures ReadBody("archive-start", ms) == Some(ArchiveStart(bytes, sha256))
  {}

  lemma ChunkRead(ms: seq<Member>, sequence: int, data: string)
    requires Field(ms, "sequence") == Some(Num(sequence)) && Field(ms, "data") == Some(Str(data))
    ensures ReadBody("archive-chunk", ms) == Some(ArchiveChunk(sequence, data))
  {}

  lemma EndRead(ms: seq<Member>, sha256: string)
    requires Field(ms, "sha256") == Some(Str(sha256))
    ensures ReadBody("archive-end", ms) == Some(ArchiveEnd(sha256))
  {}

  lemma FailureRead(ms: seq<Member>, error: string, traceback: string)
    requires Field(ms, "error") == Some(Str(error)) && Field(ms, "traceback") == Some(Str(traceback))
    ensures ReadBody("failure", ms) == Some(Failure(error, traceback))
  {}

  lemma SecondFailureRead(ms: seq<Member>, error: string)
    requires Field(ms, "error") == Some(Str(error))
    ensures ReadBody("export-failure", ms) == Some(ExportFailure(error))
  {}

  lemma ClaimRead(ms: seq<Member>)
    ensures ReadBody("complete", ms) == Some(Complete)
  {}

  lemma NoteRead(ms: seq<Member>, kind: string, detail: string)
    requires kind in NOTE_KINDS && Field(ms, NoteKey(kind)) == Some(Str(detail))
    ensures ReadBody(kind, ms) == Some(Note(kind, detail))
  {
    NoteKinds(kind);
  }

  lemma NoteKinds(kind: string)
    requires kind in NOTE_KINDS
    ensures kind !in {"archive-chunk", "host-ready", "archive-start", "archive-end", "failure", "export-failure",
                      "complete"}
  {}

  /** The coordinator reads back every message the guest can send. */
  lemma FrameReadsBack(binding: Binding, b: Body)
    requires Sendable(b)
    ensures ReadMessage(FrameOf(binding, b)) == Some(Message(binding.runId, binding.nonce, b))
  {
    FrameIsRead(binding, b);
    HeaderSays(binding, b);
    BodyRead(binding, b);
  }

  lemma FrameUnique(binding: Binding, a: Body, b: Body)
    requires Sendable(a) && Sendable(b) && FrameOf(binding, a) == FrameOf(binding, b)
    ensures a == b
  {
    FrameReadsBack(binding, a);
    FrameReadsBack(binding, b);
  }

  // ----- The coordinator's lines -----

  function Glue(a: string, b: string): (t: string)
    requires Printable(a) && Printable(b)
    ensures Printable(t) && t == a + b
  {
    a + b
  }

  function Word(r: Reply): (t: string)
    ensures Printable(t)
  {
    if r.Admit? then "admit-oci-probe" else "shutdown"
  }

  /** One member as `json.dumps` writes it with its default separators. */
  function Spaced(key: string, value: string): (t: string)
    ensures Printable(t) && t == Quote(key) + ": " + Quote(value)
  {
    Glue(Glue(Quote(key), ": "), Quote(value))
  }

  /** An object of three members as `json.dumps` writes it. */
  function ThreeSpaced(a: string, b: string, c: string): (t: string)
    requires Printable(a) && Printable(b) && Printable(c)
    ensures Printable(t) && t == "{" + a + ", " + b + ", " + c + "}"
  {
    Glue(Glue(Glue("{", a), Glue(", ", b)), Glue(Glue(", ", c), "}"))
  }

  function ReplyText(binding: Binding, r: Reply): (t: string)
    ensures Printable(t)
  {
    ThreeSpaced(Spaced("kind", Word(r)), Spaced("runId", binding.runId), Spaced("nonce", binding.nonce))
  }

  lemma SpacedRead(key: string, value: string, x: string)
    ensures ReadMember(Spaced(key, value) + x) == Some(Read(Member(key, Str(value)), x))
    ensures ReadMember(" " + (Spaced(key, value) + x)) == Some(Read(Member(key, Str(value)), x))
  {
    var s, t := Spaced(key, value) + x, " " + (Quote(value) + x);
    SpacedText(key, value, x);
    StringBack(key, ":" + t);
    StrBack(value, x);
    QuoteStart(key);
    QuoteStart(value);
    StandsStill(Quote(key), ":" + t);
    StandsStill(Quote(value), x);
    OneSpace(Quote(value) + x);
    FollowsAt(':', t);
    OneSpaced(s, key, ":" + t, t, Str(value), x);
    OneSpace(s);
    SameMember(" " + s, s);
  }

  lemma SpacedText(key: string, value: string, x: string)
    ensures Spaced(key, value) + x == Quote(key) + (":" + (" " + (Quote(value) + x)))
  {
    assert ": " == ":" + " ";
  }

  lemma OneSpace(s: string)
    ensures SkipSpace(" " + s) == SkipSpace(s)
  {
    assert (" " + s)[1..] == s;
  }

  lemma OneSpaced(s: string, key: string, rest: string, t: string, v: Json, x: string)
    requires SkipSpace(s) == s && ReadString(s) == Some(Read(key, rest)) && Follows(rest, ':', t)
    requires ReadValue(SkipSpace(t)) == Some(Read(v, x))
    ensures ReadMember(s) == Some(Read(Member(key, v), x))
  {}

  lemma SameMember(s: string, t: string)
    requires SkipSpace(s) == SkipSpace(t)
    ensures ReadMember(s) == ReadMember(t)
  {}

  /** A line of the coordinator says its kind, the run's id and its nonce, and nothing else: what the guest compares it
      with. */
  lemma ReplySays(binding: Binding, r: Reply)
    ensures ReadJson(ReplyText(binding, r)) == Some(Obj(
      [Member("kind", Str(if r.Admit? then "admit-oci-probe" else "shutdown")), Member("runId", Str(binding.runId)),
       Member("nonce", Str(binding.nonce))]))
  {
    ThreeRead("kind", Word(r), "runId", binding.runId, "nonce", binding.nonce);
  }

  lemma ThreeRead(key: string, v: string, next: string, u: string, last: string, w: string)
    ensures ReadJson(ThreeSpaced(Spaced(key, v), Spaced(next, u), Spaced(last, w)))
         == Some(Obj([Member(key, Str(v)), Member(next, Str(u)), Member(last, Str(w))]))
  {
    var c := Spaced(last, w) + "}";
    var b := Spaced(next, u) + ("," + (" " + c));
    var a := Spaced(key, v) + ("," + (" " + b));
    ReplyParts(Spaced(key, v), Spaced(next, u), Spaced(last, w));
    SpacedLast(last, w);
    SpacedNext(next, u, c, [Member(last, Str(w))]);
    SpacedNext(key, v, b, [Member(next, Str(u))] + [Member(last, Str(w))]);
    SpacedStart(key, v, "," + (" " + b));
    Three(Member(key, Str(v)), Member(next, Str(u)), Member(last, Str(w)));
    BracedRead(a, [Member(key, Str(v)), Member(next, Str(u)), Member(last, Str(w))]);
  }

  lemma Three(a: Member, b: Member, c: Member)
    ensures [a] + ([b] + [c]) == [a, b, c]
  {}

  lemma SpacedStart(key: string, v: string, x: string)
    ensures Spaced(key, v) + x != "" && (Spaced(key, v) + x)[0] == '"'
  {
    QuoteStart(key);
    assert (Spaced(key, v) + x)[0] == Quote(key)[0];
  }

  lemma SpacedLast(key: string, v: string)
    ensures ReadMembers(" " + (Spaced(key, v) + "}")) == Some(Read([Member(key, Str(v))], ""))
  {
    SpacedRead(key, v, "}");
    LastOf(" " + (Spaced(key, v) + "}"), Member(key, Str(v)));
  }

  lemma SpacedNext(key: string, v: string, t: string, more: seq<Member>)
    requires ReadMembers(" " + t) == Some(Read(more, ""))
    ensures ReadMembers(Spaced(key, v) + ("," + (" " + t))) == Some(Read([Member(key, Str(v))] + more, ""))
    ensures ReadMembers(" " + (Spaced(key, v) + ("," + (" " + t)))) == Some(Read([Member(key, Str(v))] + more, ""))
  {
    var s := Spaced(key, v) + ("," + (" " + t));
    SpacedRead(key, v, "," + (" " + t));
    NextOf(s, Member(key, Str(v)), " " + t, more);
    NextOf(" " + s, Member(key, Str(v)), " " + t, more);
  }

  lemma ReplyParts(a: string, b: string, c: string)
    ensures "{" + a + ", " + b + ", " + c + "}" == "{" + (a + ("," + (" " + (b + ("," + (" " + (c + "}")))))))
  {
    assert ", " == "," + " ";
  }

  lemma LastOf(s: string, m: Member)
    requires ReadMember(s) == Some(Read(m, "}"))
    ensures ReadMembers(s) == Some(Read([m], ""))
  {
    FollowsAt('}', "");
    assert ['}'] + "" == "}";
    LastMember(s, m, "}", "");
  }

  lemma NextOf(s: string, m: Member, t: string, more: seq<Member>)
    requires ReadMember(s) == Some(Read(m, "," + t)) && ReadMembers(t) == Some(Read(more, ""))
    ensures ReadMembers(s) == Some(Read([m] + more, ""))
  {
    FollowsAt(',', t);
    NextMember(s, m, "," + t, t, more, "");
  }

  lemma MembersRead(a: string, ms: seq<Member>)
    requires a != "" && a[0] == '"' && ReadMembers(a) == Some(Read(ms, ""))
    ensures ReadObject(a) == Some(Read(Obj(ms), ""))
  {
    assert SkipSpace(a) == a;
  }

  lemma BraceRead(t: string, v: Json)
    requires t != "" && t[0] == '{' && ReadObject(t[1..]) == Some(Read(v, ""))
    ensures ReadJson(t) == Some(v)
  {
    assert SkipSpace(t) == t;
  }

  lemma BracedRead(a: string, ms: seq<Member>)
    requires a != "" && a[0] == '"' && ReadMembers(a) == Some(Read(ms, ""))
    ensures ReadJson("{" + a) == Some(Obj(ms))
  {
    MembersRead(a, ms);
    assert ("{" + a)[1..] == a;
    BraceRead("{" + a, Obj(ms));
  }

  // ----- A faithful world -----

  /** A concrete world: JSON text for both directions, and the coordinator's own reading of a line. */
  ghost function JsonWorld(binding: Binding, digest: seq<Byte> -> string, sendOk: nat -> bool): World {
    World(binding, ReadMessage, b => FrameOf(binding, b), r => Encode(ReplyText(binding, r)), digest, sendOk)
  }

  lemma RepliesDiffer(binding: Binding)
    ensures Encode(ReplyText(binding, Admit)) != Encode(ReplyText(binding, Shutdown))
  {
    WordSaid(ReplyText(binding, Admit), binding, Admit);
    WordSaid(ReplyText(binding, Shutdown), binding, Shutdown);
    if Encode(ReplyText(binding, Admit)) == Encode(ReplyText(binding, Shutdown)) {
      EncodeUnique(ReplyText(binding, Admit), ReplyText(binding, Shutdown));
    }
  }

  lemma WordSaid(t: string, binding: Binding, r: Reply)
    requires t == ReplyText(binding, r)
    ensures ReadJson(t).Some? && ReadJson(t).value.Obj? && |ReadJson(t).value.members| == 3
    ensures ReadJson(t).value.members[0].value.Str?
    ensures |ReadJson(t).value.members[0].value.s| == if r.Admit? then 15 else 8
  {
    ReplySays(binding, r);
  }

  /** The assumption of the channel proofs is met: the frames are newline-free, and reading them as JSON gives back
      the message. */
  lemma JsonWorldIsFaithful(binding: Binding, digest: seq<Byte> -> string, sendOk: nat -> bool)
    ensures Faithful(JsonWorld(binding, digest, sendOk))
  {
    var w := JsonWorld(binding, digest, sendOk);
    forall b {:trigger w.text(b)} | Sendable(b)
      ensures LF !in w.text(b) && w.read(w.text(b)) == Some(Message(binding.runId, binding.nonce, b))
    {
      FrameReadsBack(binding, b);
    }
    RepliesDiffer(binding);
  }

  // ----- Torn frames -----

  lemma EncodeAppend(a: string, b: string)
    requires Printable(a) && Printable(b)
    ensures Printable(a + b) && Encode(a + b) == Encode(a) + Encode(b)
  {}

  lemma EncodeFront(t: string, n: nat)
    requires Printable(t) && n <= |t|
    ensures Printable(t[..n]) && Encode(t[..n]) == Encode(t)[..n]
  {}

  /** A torn frame and the next one are not JSON. */
  lemma TornFrame(binding: Binding, b: Body, c: Body, n: nat)
    requires 0 < n <= |FrameOf(binding, b)|
    ensures ReadMessage(FrameOf(binding, b)[..n] + FrameOf(binding, c)).None?
  {
    var t, u := Text(ToJson(binding, b)), Text(ToJson(binding, c));
    EncodeFront(t, n);
    EncodeAppend(t[..n], u);
    FirstChar(ToJson(binding, b));
    assert t[..n][0] == t[0];
    NoObjectEndsInAnother(t[..n], FrameMembers(binding, c));
    CharactersBack(t[..n] + u);
  }

  /** The assumption about torn frames is met too. */
  lemma JsonTornUnreadable(binding: Binding, digest: seq<Byte> -> string, sendOk: nat -> bool)
    ensures TornUnreadable(JsonWorld(binding, digest, sendOk))
  {
    var w := JsonWorld(binding, digest, sendOk);
    forall b, c, n: nat | Sendable(b) && Sendable(c) && 0 < n <= |w.text(b)|
      ensures !Authentic(w, w.text(b)[..n] + w.text(c))
    {
      TornFrame(binding, b, c, n);
    }
  }
}
