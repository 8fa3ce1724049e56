/** The coordinator's finalizer: what it checks, what it deletes and how it decides its exit code. */
module HostCleanup {
  import opened Wrappers
  import opened HostJob

  datatype Kind = Regular | Socket | OtherKind

  datatype Entry = Entry(name: string, kind: Kind, content: string)

  const ALLOWED: set<string> :=
    {"owner.json", "overlay.qcow2", "seed.iso", "user-data", "meta-data", "network-config", "qmp.sock", "job.sock"}

  /** What the finalizer observes around the guest directory. `owner` is what was written to owner.json, None
      if that was never reached; the hashes taken before are None if the run failed before taking them. */
  datatype Surroundings = Surroundings(
    reaped: bool, pidAbsent: bool, mainPidZero: bool, cgroupAbsent: bool, resolvesToItself: bool,
    owner: Option<string>, inputsBefore: Option<string>, inputsAfter: string,
    packagesBefore: Option<string>, packagesAfter: string, sentinelIntact: bool)

  /** The directory bears the record this run wrote. */
  ghost predicate Owned(entries: seq<Entry>, owner: string) {
    exists i :: 0 <= i < |entries| && entries[i].name == "owner.json" && entries[i].content == owner
  }

  ghost predicate OneRecord(entries: seq<Entry>) {
    forall i, j :: 0 <= i < j < |entries| ==> entries[i].name != entries[j].name
  }

  /** Everything in the directory is something the run itself puts there. */
  ghost predicate OnlyOwnFiles(entries: seq<Entry>) {
    forall i :: 0 <= i < |entries| ==>
      entries[i].name in ALLOWED && (entries[i].kind.Regular? || entries[i].kind.Socket?)
  }

  /** When deletion may begin. */
  ghost predicate MayDelete(entries: seq<Entry>, s: Surroundings) {
    && s.reaped && s.pidAbsent && s.mainPidZero && s.cgroupAbsent
    && s.owner.Some? && s.resolvesToItself && Owned(entries, s.owner.value) && OnlyOwnFiles(entries)
  }

  ghost predicate Verified(entries: seq<Entry>, s: Surroundings) {
    && s.reaped && s.pidAbsent && s.mainPidZero && s.cgroupAbsent
    && (s.owner.Some? ==> MayDelete(entries, s))
    && s.inputsBefore == Some(s.inputsAfter) && s.packagesBefore == Some(s.packagesAfter) && s.sentinelIntact
  }

  lemma OwnedStep(entries: seq<Entry>, e: Entry)
    ensures forall owner ::
      Owned(entries + [e], owner) <==> Owned(entries, owner) || (e.name == "owner.json" && e.content == owner)
  {
    var all := entries + [e];
    forall owner
      ensures Owned(all, owner) <==> Owned(entries, owner) || (e.name == "owner.json" && e.content == owner)
    {
      assert all[|entries|] == e;
      assert forall i :: 0 <= i < |entries| ==> all[i] == entries[i];
    }
  }

  class GuestDirectory {
    var entries: seq<Entry>
    var present: bool

    constructor (entries: seq<Entry>)
      ensures this.entries == entries && present
    {
      this.entries, present := entries, true;
    }

    method ReadOwner() returns (content: Option<string>)
      requires OneRecord(entries)
      ensures forall owner :: content == Some(owner) <==> Owned(entries, owner)
    {
      content := None;
      for i := 0 to |entries|
        invariant forall owner :: content == Some(owner) <==> Owned(entries[..i], owner)
      {
        if entries[i].name == "owner.json" {
          assert forall j :: 0 <= j < i ==> entries[..i][j].name != "owner.json";
          content := Some(entries[i].content);
        }
        assert entries[..i + 1] == entries[..i] + [entries[i]];
        OwnedStep(entries[..i], entries[i]);
      }
      assert entries[..|entries|] == entries;
    }

    /** Removes the directory if every entry is the run's own; otherwise deletes nothing. */
    method Remove(owner: string, resolvesToItself: bool) returns (removed: bool)
      requires OneRecord(entries)
      modifies this
      ensures removed <==> resolvesToItself && Owned(old(entries), owner) && OnlyOwnFiles(old(entries))
      ensures removed ==> entries == [] && !present
      ensures !removed ==> entries == old(entries) && present == old(present)
    {
      var record := ReadOwner();
      if !resolvesToItself || record != Some(owner) {
        return false;
      }
      for i := 0 to |entries|
        invariant OnlyOwnFiles(entries[..i])
      {
        if entries[i].name !in ALLOWED {
          return false;
        }
        if entries[i].kind.OtherKind? {
          return false;
        }
      }
      while entries != []
        invariant OnlyOwnFiles(old(entries))
        decreases |entries|
      {
        entries := entries[1..];
      }
      present := false;
      return true;
    }

    /** The finalizer. Exit code 0 needs the observed status and every check. */
    method Finalize(status: Status, s: Surroundings) returns (exitZero: bool)
      requires OneRecord(entries)
      modifies this
      ensures exitZero <==> status == Observed && Verified(old(entries), s)
      ensures exitZero <==>
        && status == Observed && s.reaped && s.pidAbsent && s.mainPidZero && s.cgroupAbsent
        && s.inputsBefore == Some(s.inputsAfter) && s.packagesBefore == Some(s.packagesAfter) && s.sentinelIntact
        && (s.owner.Some? ==>
              && s.resolvesToItself
              && (exists i :: 0 <= i < |old(entries)| && old(entries)[i].name == "owner.json"
                              && old(entries)[i].content == s.owner.value)
              && forall i :: 0 <= i < |old(entries)| ==>
                   && old(entries)[i].name in {"owner.json", "overlay.qcow2", "seed.iso", "user-data", "meta-data",
                                               "network-config", "qmp.sock", "job.sock"}
                   && !old(entries)[i].kind.OtherKind?)
      ensures entries == old(entries) || (entries == [] && MayDelete(old(entries), s))
      ensures exitZero && s.owner.Some? ==> entries == [] && !present
    {
      exitZero := false;
      if !s.reaped {
        return;
      }
      if !s.pidAbsent || !s.mainPidZero || !s.cgroupAbsent {
        return;
      }
      if s.owner.Some? {
        var removed := Remove(s.owner.value, s.resolvesToItself);
        if !removed {
          return;
        }
      }
      if s.inputsBefore != Some(s.inputsAfter) || s.packagesBefore != Some(s.packagesAfter) || !s.sentinelIntact {
        return;
      }
      exitZero := status == Observed;
    }
  }
}
