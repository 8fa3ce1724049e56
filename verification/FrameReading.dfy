/** What the coordinator reads in a line: JSON, and in it the members it looks for. */
module FrameReading {
  import opened Framing
  import opened Wrappers
  import opened Counting
  import opened HostJob
  import opened JsonText
  import opened JsonReading

  function MemberKey(m: Member): string { m.key }

  /** A member of an object: the last one with the key, as Python's reader keeps it. */
  function Field(members: seq<Member>, key: string): Option<Json> {
    match LastWith(members, MemberKey, key)
    case None => None
    case Some(m) => Some(m.value)
  }

  function TextOf(v: Option<Json>): Option<string> {
    match v
    case Some(Str(s)) => Some(s)
    case _ => None
  }

  function NumberOf(v: Option<Json>): Option<int> {
    match v
    case Some(Num(n)) => Some(n)
    case _ => None
  }

  function TextField(members: seq<Member>, key: string): Option<string> {
    TextOf(Field(members, key))
  }

  function ObjectField(members: seq<Member>, key: string): Option<seq<Member>> {
    match Field(members, key)
    case Some(Obj(inner)) => Some(inner)
    case _ => None
  }

  function ArrayField(members: seq<Member>, key: string): Option<seq<Json>> {
    match Field(members, key)
    case Some(Arr(items)) => Some(items)
    case _ => None
  }

  /** All the items, if each is read. */
  function Each<T>(items: seq<Json>, read: Json -> Option<T>): Option<seq<T>> {
    if items == [] then Some([])
    else
      match (read(items[0]), Each(items[1..], read))
      case (Some(first), Some(rest)) => Some([first] + rest)
      case _ => None
  }

  function StringOf(v: Json): Option<string> {
    if v.Str? then Some(v.s) else None
  }

  function TruthOf(v: Json): Option<bool> {
    if v.Bool? then Some(v.b) else None
  }

  /** `image['Id']` */
  function IdOf(v: Json): Option<string> {
    if v.Obj? then TextField(v.members, "Id") else None
  }

  /** `.values()`: of members with one key, the last counts. */
  function Values(members: seq<Member>): seq<Json> {
    if members == [] then []
    else if exists i :: 0 < i < |members| && members[i].key == members[0].key then Values(members[1..])
    else [members[0].value] + Values(members[1..])
  }

  /** `dockerVersion['Server']['Version']` */
  function ServerVersion(members: seq<Member>): Option<string> {
    match ObjectField(members, "dockerVersion")
    case None => None
    case Some(docker) =>
      match ObjectField(docker, "Server")
      case None => None
      case Some(server) => TextField(server, "Version")
  }

  /** The source is compared as a whole, so it has these four members and no other. */
  function ReadSource(members: seq<Member>): Option<Source> {
    if exists i :: 0 <= i < |members| && members[i].key !in {"commit", "tree", "status", "privateRefs"} then None
    else
      match (TextField(members, "commit"), TextField(members, "tree"), TextField(members, "status"),
             TextField(members, "privateRefs"))
      case (Some(commit), Some(tree), Some(status), Some(refs)) => Some(Source(commit, tree, status, refs))
      case _ => None
  }

  function Strings(v: Option<seq<Json>>): Option<seq<string>> {
    match v
    case None => None
    case Some(items) => Each(items, StringOf)
  }

  function ForbiddenPaths(members: seq<Member>): Option<seq<bool>> {
    match ObjectField(members, "forbiddenPaths")
    case None => None
    case Some(paths) => Each(Values(paths), TruthOf)
  }

  function ImageIds(members: seq<Member>): Option<seq<string>> {
    match ArrayField(members, "image")
    case None => None
    case Some(images) => Each(images, IdOf)
  }

  function SourceOf(members: seq<Member>): Option<Source> {
    match ObjectField(members, "source")
    case None => None
    case Some(inner) => ReadSource(inner)
  }

  function ReadObservation(members: seq<Member>): Option<Observation> {
    match (TextField(members, "platform"), Strings(ArrayField(members, "networkInterfaces")),
           TextField(members, "nodeVersion"), TextField(members, "pnpmVersion"), ServerVersion(members))
    case (Some(platform), Some(interfaces), Some(node), Some(pnpm), Some(docker)) => (
      match (ImageIds(members), SourceOf(members), ForbiddenPaths(members),
             Strings(ArrayField(members, "cgroupControllers")))
      case (Some(images), Some(source), Some(forbidden), Some(controllers)) =>
        Some(Observation(platform, interfaces, node, pnpm, docker, images, source, forbidden, controllers))
      case _ => None
    )
    case _ => None
  }

  function OrEmpty(v: Option<string>): string {
    match v
    case None => ""
    case Some(s) => s
  }

  /** The member of a note that is kept. */
  function NoteKey(kind: string): string {
    if kind == "boot" then "bootId"
    else if kind == "oci-completed" then "containers"
    else if kind == "diagnostic-write-failure" then "error"
    else "phase"
  }

  /** What is read of each kind. Members that the coordinator does not need may be missing. */
  function ReadBody(kind: string, members: seq<Member>): Option<Body> {
    if kind == "archive-chunk" then
      match (NumberOf(Field(members, "sequence")), TextField(members, "data"))
      case (Some(n), Some(data)) => Some(ArchiveChunk(n, data))
      case _ => None
    else if kind == "host-ready" then
      match ObjectField(members, "observation")
      case None => None
      case Some(inner) =>
        (match ReadObservation(inner)
         case None => None
         case Some(o) => Some(HostReady(o)))
    else if kind == "archive-start" then
      match (NumberOf(Field(members, "bytes")), TextField(members, "sha256"))
      case (Some(n), Some(sha256)) => Some(ArchiveStart(n, sha256))
      case _ => None
    else if kind == "archive-end" then
      match TextField(members, "sha256")
      case None => None
      case Some(sha256) => Some(ArchiveEnd(sha256))
    else if kind == "failure" then
      match TextField(members, "error")
      case None => None
      case Some(error) => Some(Failure(error, OrEmpty(TextField(members, "traceback"))))
    else if kind == "export-failure" then
      match TextField(members, "error")
      case None => None
      case Some(error) => Some(ExportFailure(error))
    else if kind == "complete" then Some(Complete)
    else Some(Note(kind, OrEmpty(TextField(members, NoteKey(kind)))))
  }

  /** The characters of ASCII bytes. */
  function Characters(line: seq<Byte>): (t: string)
    requires forall i :: 0 <= i < |line| ==> line[i] < 128
    ensures |t| == |line| && forall i :: 0 <= i < |t| ==> t[i] as int == line[i]
  {
    seq(|line|, i requires 0 <= i < |line| => line[i] as char)
  }

  function LineObject(line: seq<Byte>): Option<seq<Member>> {
    if exists i :: 0 <= i < |line| && line[i] >= 128 then None
    else
      match ReadJson(Characters(line))
      case Some(Obj(members)) => Some(members)
      case _ => None
  }

  /** A line as a message; None where the coordinator raises on it. */
  function ReadMessage(line: seq<Byte>): Option<Message> {
    match LineObject(line)
    case None => None
    case Some(members) =>
      match (TextField(members, "runId"), TextField(members, "nonce"), TextField(members, "kind"))
      case (Some(runId), Some(nonce), Some(kind)) => (
        match ReadBody(kind, members)
        case None => None
        case Some(body) => Some(Message(runId, nonce, body))
      )
      case _ => None
  }
}
