/** ScenarioTest as an object: the cleanup stack unittest keeps for the
    test, cleanup_waits, the names of the disks attached to the guest and
    the path of the last test file. Its methods are the registration
    helpers and the resource factories of the scenario base classes, each
    with the remote answers it depends on as parameters, and doCleanups,
    the teardown that drains what they registered. */
module Scenario {
  import opened Errors
  import opened Text
  import opened Cleanup
  import LisSizes
  import Subnets

  /** The two entries create_volume registers: the wait for the volume to
      be gone, then its delete through delete_wrapper. */
  function VolumeCleanups(volumeId: string): seq<CleanupEntry> {
    [CleanupEntry(Plain("volumes_client.wait_for_resource_deletion"), [volumeId], map[]),
     CleanupEntry(DeleteWrapper("volumes_client.delete_volume"), [volumeId], map[])]
  }

  /** Registered in that order, they are drained the other way round: the
      volume's delete is issued, then its deletion is waited for, and both
      before anything registered earlier. */
  lemma VolumeDeleteThenWait(pre: seq<CleanupEntry>, volumeId: string, waits: seq<WaitRecord>, respond: Call -> Outcome)
    ensures var d := DrainSpec(pre + VolumeCleanups(volumeId), waits, respond);
      |d.calls| >= 2 &&
      d.calls[0] == CleanupCall(CleanupEntry(DeleteWrapper("volumes_client.delete_volume"), [volumeId], map[])) &&
      d.calls[1] == CleanupCall(CleanupEntry(Plain("volumes_client.wait_for_resource_deletion"), [volumeId], map[]))
  {
    var vs := VolumeCleanups(volumeId);
    DrainConcat(pre, vs, waits, respond);
    LifoCallsAt(vs);
  }

  /** The entries create_server registers: with wait_on_delete (its
      default), a plain wait_for_server_termination(servers_client, id),
      then the server's delete through delete_wrapper. */
  function ServerCleanups(serverId: string, waitOnDelete: bool): seq<CleanupEntry> {
    (if waitOnDelete
     then [CleanupEntry(Plain("wait_for_server_termination"), ["servers_client", serverId], map[])]
     else []) +
    [CleanupEntry(DeleteWrapper("servers_client.delete_server"), [serverId], map[])]
  }

  /** The wait record create_server appends to cleanup_waits. */
  function ServerWaitRecord(serverId: string): WaitRecord {
    WaitRecordFor("wait_for_server_termination", serverId, "server_id", Some("servers_client"))
  }

  /** The teardown of a test that booted a server and then created a
      volume, whatever the remote calls answer: the volume's delete and its
      wait for deletion come first, then the server's delete; with
      wait_on_delete the plain wait for the server's termination follows
      at once (it was pushed just before the delete); and only then comes
      the wait from cleanup_waits, with server_id and the servers client. */
  lemma ServerThenVolume(serverId: string, volumeId: string, waitOnDelete: bool, respond: Call -> Outcome)
    ensures DrainSpec([WaitEntry] + ServerCleanups(serverId, waitOnDelete) + VolumeCleanups(volumeId),
                      [ServerWaitRecord(serverId)], respond).calls ==
        [CleanupCall(CleanupEntry(DeleteWrapper("volumes_client.delete_volume"), [volumeId], map[])),
         CleanupCall(CleanupEntry(Plain("volumes_client.wait_for_resource_deletion"), [volumeId], map[])),
         CleanupCall(CleanupEntry(DeleteWrapper("servers_client.delete_server"), [serverId], map[]))] +
        (if waitOnDelete
         then [CleanupCall(CleanupEntry(Plain("wait_for_server_termination"), ["servers_client", serverId], map[]))]
         else []) +
        [WaiterCall("wait_for_server_termination",
                    map["server_id" := IdValue(serverId)][ClientKey := ClientValue("servers_client")])]
  {
    var record := ServerWaitRecord(serverId);
    var rest := ServerCleanups(serverId, waitOnDelete) + VolumeCleanups(volumeId);
    WaitRecordCall("wait_for_server_termination", serverId, "server_id", Some("servers_client"));
    assert [WaitEntry] + ServerCleanups(serverId, waitOnDelete) + VolumeCleanups(volumeId) == [] + [WaitEntry] + rest;
    DrainAfterSetUp([], rest, [record], respond);
    assert [record][1..] == [];
    LifoNewest(rest);
    if waitOnDelete {
      assert LifoCalls(rest) == [CleanupCall(rest[3]), CleanupCall(rest[2]), CleanupCall(rest[1]), CleanupCall(rest[0])];
    } else {
      assert LifoCalls(rest) == [CleanupCall(rest[2]), CleanupCall(rest[1]), CleanupCall(rest[0])];
    }
  }

  /** Calls and errors already made, followed by what a drain makes. */
  function Then(calls: seq<Call>, errors: seq<Error>, d: Drained): Drained {
    Drained(calls + d.calls, errors + d.errors, d.waits)
  }

  lemma ThenStep(calls: seq<Call>, errors: seq<Error>, s: Step, d: Drained)
    ensures Then(calls, errors, Drained(s.calls + d.calls, s.errors + d.errors, d.waits)) ==
            Then(calls + s.calls, errors + s.errors, d)
  {
    AppendAssoc(calls, s.calls, d.calls);
    AppendAssoc(errors, s.errors, d.errors);
  }

  /** Waiter calls already made and records already visited, followed by
      what the rest of _wait_for_cleanups does. */
  function WaitsThen(calls: seq<Call>, done: seq<WaitRecord>, r: WaitsRun): WaitsRun {
    WaitsRun(calls + r.calls, done + r.waits, r.failure)
  }

  lemma WaitsThenStep(calls: seq<Call>, done: seq<WaitRecord>, call: Call, kwargs: WaitRecord, r: WaitsRun)
    ensures WaitsThen(calls, done, WaitsRun([call] + r.calls, [kwargs] + r.waits, r.failure)) ==
            WaitsThen(calls + [call], done + [kwargs], r)
  {
    AppendAssoc(calls, [call], r.calls);
    AppendAssoc(done, [kwargs], r.waits);
  }

  /** One record of _wait_for_cleanups, seen from position i, when the
      records before it have been visited: without a waiter it raises
      KeyError and leaves the record alone ... */
  lemma WaitsMissing(ws: seq<WaitRecord>, i: nat, calls: seq<Call>, done: seq<WaitRecord>, respond: Call -> Outcome)
    requires i < |ws| && WaiterKey !in ws[i]
    requires RunWaits(ws, respond) == WaitsThen(calls, done, RunWaits(ws[i..], respond))
    ensures RunWaits(ws, respond) == WaitsRun(calls, done + ws[i..], Some(KeyError(WaiterKey)))
  {
    assert calls + [] == calls;
  }

  /** ... with a waiter that is not callable it raises TypeError after the
      pop ... */
  lemma WaitsNotCallable(ws: seq<WaitRecord>, i: nat, calls: seq<Call>, done: seq<WaitRecord>, respond: Call -> Outcome)
    requires i < |ws| && WaiterKey in ws[i] && !ws[i][WaiterKey].WaiterFn?
    requires RunWaits(ws, respond) == WaitsThen(calls, done, RunWaits(ws[i..], respond))
    ensures RunWaits(ws, respond) ==
              WaitsRun(calls, done + ([ws[i] - {WaiterKey}] + ws[i + 1..]), Some(TypeError("wait value is not callable")))
  {
    assert ws[i..][1..] == ws[i + 1..];
    assert calls + [] == calls;
  }

  /** ... with a waiter that raises it stops after the call ... */
  lemma WaitsFailed(ws: seq<WaitRecord>, i: nat, calls: seq<Call>, done: seq<WaitRecord>, respond: Call -> Outcome)
    requires i < |ws| && WellFormed(ws[i])
    requires respond(WaiterCall(ws[i][WaiterKey].name, ws[i] - {WaiterKey})).Fail?
    requires RunWaits(ws, respond) == WaitsThen(calls, done, RunWaits(ws[i..], respond))
    ensures var call := WaiterCall(ws[i][WaiterKey].name, ws[i] - {WaiterKey});
      RunWaits(ws, respond) ==
        WaitsRun(calls + [call], done + ([ws[i] - {WaiterKey}] + ws[i + 1..]), Some(respond(call).error))
  {
    assert ws[i..][1..] == ws[i + 1..];
  }

  /** ... and with a waiter that returns it goes on with the next record. */
  lemma WaitsAdvance(ws: seq<WaitRecord>, i: nat, calls: seq<Call>, done: seq<WaitRecord>, respond: Call -> Outcome)
    requires i < |ws| && WellFormed(ws[i])
    requires respond(WaiterCall(ws[i][WaiterKey].name, ws[i] - {WaiterKey})).Pass?
    requires RunWaits(ws, respond) == WaitsThen(calls, done, RunWaits(ws[i..], respond))
    ensures RunWaits(ws, respond) ==
              WaitsThen(calls + [WaiterCall(ws[i][WaiterKey].name, ws[i] - {WaiterKey})],
                        done + [ws[i] - {WaiterKey}], RunWaits(ws[i + 1..], respond))
  {
    assert ws[i..][1..] == ws[i + 1..];
    var rest := RunWaits(ws[i + 1..], respond);
    WaitsThenStep(calls, done, WaiterCall(ws[i][WaiterKey].name, ws[i] - {WaiterKey}), ws[i] - {WaiterKey}, rest);
  }

  /** The loop of _wait_for_cleanups: visit the records in order, pop the
      waiter from each and call it with what is left; the first exception
      ends it. `waits` is the records as the loop leaves them. */
  method VisitWaits(ws: seq<WaitRecord>, respond: Call -> Outcome)
    returns (calls: seq<Call>, waits: seq<WaitRecord>, failure: Option<Error>)
    ensures RunWaits(ws, respond) == WaitsRun(calls, waits, failure)
  {
    var done: seq<WaitRecord> := [];
    calls := [];
    var i := 0;
    assert ws[0..] == ws;
    while i < |ws|
      invariant 0 <= i <= |ws|
      invariant RunWaits(ws, respond) == WaitsThen(calls, done, RunWaits(ws[i..], respond))
    {
      var w := ws[i];
      if WaiterKey !in w {
        WaitsMissing(ws, i, calls, done, respond);
        return calls, done + ws[i..], Some(KeyError(WaiterKey));
      }
      var kwargs := w - {WaiterKey};
      if !w[WaiterKey].WaiterFn? {
        WaitsNotCallable(ws, i, calls, done, respond);
        return calls, done + ([kwargs] + ws[i + 1..]), Some(TypeError("wait value is not callable"));
      }
      var call := WaiterCall(w[WaiterKey].name, kwargs);
      var o := respond(call);
      if o.Fail? {
        WaitsFailed(ws, i, calls, done, respond);
        return calls + [call], done + ([kwargs] + ws[i + 1..]), Some(o.error);
      }
      WaitsAdvance(ws, i, calls, done, respond);
      calls := calls + [call];
      done := done + [kwargs];
      i := i + 1;
    }
    assert ws[i..] == [] && done + [] == done && calls + [] == calls;
    waits, failure := done, None;
  }

  /** The name the service echoes back: display_name when present (the
      volume API v1), name otherwise. */
  function EchoedName(volume: map<string, string>): Option<string> {
    if "display_name" in volume then Some(volume["display_name"])
    else if "name" in volume then Some(volume["name"])
    else None
  }

  /** The path create_test_file builds: the default VHD directory without
      trailing whitespace, a backslash, and the time-stamped file name. */
  function TestFilePath(vhdPath: string, timestamp: string): string {
    RStrip(vhdPath) + "\\" + "testfile-" + timestamp + ".file"
  }

  class TestCase {
    /** unittest's stack of cleanups, oldest first. */
    var cleanups: seq<CleanupEntry>
    /** cleanup_waits. */
    var cleanupWaits: seq<WaitRecord>
    /** self.disks: the names of the disks attached by the test. */
    var disks: seq<string>
    /** self.test_file and self.file_path. */
    var testFile: string
    var filePath: string
    /** Where setUp put _wait_for_cleanups in the stack. */
    ghost var waitIndex: nat

    /** After setUp: _wait_for_cleanups is in the stack exactly once. */
    ghost predicate Valid()
      reads this
    {
      waitIndex < |cleanups| && cleanups[waitIndex] == WaitEntry &&
      NoWaitEntry(cleanups[..waitIndex]) && NoWaitEntry(cleanups[waitIndex + 1..])
    }

    /** A test case before its setUp runs. */
    constructor ()
      ensures cleanups == [] && cleanupWaits == [] && disks == []
    {
      cleanups := [];
      cleanupWaits := [];
      disks := [];
      testFile := "";
      filePath := "";
    }

    /** setUp: the base class's setUp registers its own cleanups
        (`inherited`), then cleanup_waits starts empty and
        _wait_for_cleanups is pushed, so that it runs after every cleanup
        the test registers from here on. */
    method SetUp(inherited: seq<CleanupEntry>)
      requires NoWaitEntry(cleanups) && NoWaitEntry(inherited)
      modifies this
      ensures cleanups == old(cleanups) + inherited + [WaitEntry]
      ensures cleanupWaits == []
      ensures disks == old(disks) && testFile == old(testFile) && filePath == old(filePath)
      ensures Valid() && waitIndex == |old(cleanups)| + |inherited|
    {
      cleanups := cleanups + inherited;
      cleanupWaits := [];
      cleanups := cleanups + [WaitEntry];
      waitIndex := |cleanups| - 1;
      assert cleanups[..waitIndex] == old(cleanups) + inherited;
      assert cleanups[waitIndex + 1..] == [];
    }

    /** unittest's addCleanup. */
    method AddCleanup(fn: Callable, args: seq<string>, kwargs: map<string, string>)
      modifies this
      ensures cleanups == old(cleanups) + [CleanupEntry(fn, args, kwargs)]
      ensures cleanupWaits == old(cleanupWaits) && disks == old(disks)
      ensures testFile == old(testFile) && filePath == old(filePath) && waitIndex == old(waitIndex)
      ensures old(Valid()) && !fn.WaitForCleanups? ==> Valid()
    {
      cleanups := cleanups + [CleanupEntry(fn, args, kwargs)];
      assert old(Valid()) ==> cleanups[..waitIndex] == old(cleanups)[..waitIndex];
      assert old(Valid()) ==> cleanups[waitIndex + 1..] == old(cleanups)[waitIndex + 1..] + [CleanupEntry(fn, args, kwargs)];
    }

    /** addCleanup_with_wait: push the cleanup (with no arguments when none
        are given), then append the wait record for it. */
    method AddCleanupWithWait(waiter: string, thingId: string, thingIdParam: string, cleanup: Callable,
                              cleanupArgs: Option<seq<string>>, cleanupKwargs: Option<map<string, string>>,
                              waiterClient: Option<string>)
      modifies this
      ensures cleanups == old(cleanups) +
                [CleanupEntry(cleanup, if cleanupArgs.Some? then cleanupArgs.value else [],
                              if cleanupKwargs.Some? then cleanupKwargs.value else map[])]
      ensures cleanupWaits == old(cleanupWaits) + [WaitRecordFor(waiter, thingId, thingIdParam, waiterClient)]
      ensures disks == old(disks) && testFile == old(testFile) && filePath == old(filePath)
      ensures waitIndex == old(waitIndex)
      ensures old(Valid()) && !cleanup.WaitForCleanups? ==> Valid()
    {
      var args := if cleanupArgs.Some? then cleanupArgs.value else [];
      var kwargs := if cleanupKwargs.Some? then cleanupKwargs.value else map[];
      AddCleanup(cleanup, args, kwargs);
      cleanupWaits := cleanupWaits + [WaitRecordFor(waiter, thingId, thingIdParam, waiterClient)];
    }

    /** _wait_for_cleanups on the test's cleanup_waits; each visited record
        is left without its waiter. */
    method WaitForCleanups(respond: Call -> Outcome) returns (calls: seq<Call>, failure: Option<Error>)
      modifies this
      ensures RunWaits(old(cleanupWaits), respond) == WaitsRun(calls, cleanupWaits, failure)
      ensures cleanups == old(cleanups) && disks == old(disks)
      ensures testFile == old(testFile) && filePath == old(filePath) && waitIndex == old(waitIndex)
    {
      var waits;
      calls, waits, failure := VisitWaits(cleanupWaits, respond);
      cleanupWaits := waits;
    }

    /** unittest's doCleanups: pop the newest entry and call it until the
        stack is empty; an entry that raises has its error recorded and the
        next entry still runs. After setUp this issues the cleanups the
        test registered, newest first, then the waits in registration
        order, then the cleanups registered before setUp's own. */
    method DoCleanups(respond: Call -> Outcome) returns (calls: seq<Call>, errors: seq<Error>)
      modifies this
      ensures cleanups == []
      ensures DrainSpec(old(cleanups), old(cleanupWaits), respond) == Drained(calls, errors, cleanupWaits)
      ensures old(Valid()) ==>
        var pre := old(cleanups)[..old(waitIndex)];
        var rest := old(cleanups)[old(waitIndex) + 1..];
        var w := RunWaits(old(cleanupWaits), respond);
        calls == LifoCalls(rest) + w.calls + LifoCalls(pre) &&
        errors == LifoErrors(rest, respond) + OptionErrors(w.failure) + LifoErrors(pre, respond)
      ensures disks == old(disks) && testFile == old(testFile) && filePath == old(filePath)
    {
      ghost var entries := cleanups;
      ghost var waits := cleanupWaits;
      calls := [];
      errors := [];
      assert DrainSpec(entries, waits, respond) == Then([], [], DrainSpec(cleanups, cleanupWaits, respond));
      while cleanups != []
        invariant DrainSpec(entries, waits, respond) == Then(calls, errors, DrainSpec(cleanups, cleanupWaits, respond))
        invariant disks == old(disks) && testFile == old(testFile) && filePath == old(filePath)
        decreases |cleanups|
      {
        var e := cleanups[|cleanups| - 1];
        ghost var step := RunEntry(e, cleanupWaits, respond);
        ghost var c0, e0 := calls, errors;
        cleanups := cleanups[..|cleanups| - 1];
        if e.fn.WaitForCleanups? {
          var c, f := WaitForCleanups(respond);
          calls := calls + c;
          errors := errors + OptionErrors(f);
        } else {
          var o := respond(CleanupCall(e));
          if e.fn.DeleteWrapper? {
            o := DeleteWrapped(o);
          }
          calls := calls + [CleanupCall(e)];
          errors := errors + Failures(o);
        }
        assert calls == c0 + step.calls && errors == e0 + step.errors && cleanupWaits == step.waits;
        ThenStep(c0, e0, step, DrainSpec(cleanups, cleanupWaits, respond));
      }
      if old(Valid()) {
        var pre := entries[..old(waitIndex)];
        var rest := entries[old(waitIndex) + 1..];
        assert entries == pre + [WaitEntry] + rest;
        DrainAfterSetUp(pre, rest, waits, respond);
      }
    }

    /** create_volume after the create call answered `created` (the volume
        as returned), the status wait answered `statusWait` and the final
        show answered `shown`. Once the volume has an id, both of its
        cleanups are registered, even when a later check fails. */
    method CreateVolume(name: string, created: Result<map<string, string>>, statusWait: Outcome,
                        shown: Result<map<string, string>>)
      returns (r: Result<map<string, string>>)
      modifies this
      ensures created.Err? ==> r == created && cleanups == old(cleanups)
      ensures created.Ok? && "id" !in created.value ==> r == Err(KeyError("id")) && cleanups == old(cleanups)
      ensures created.Ok? && "id" in created.value ==> cleanups == old(cleanups) + VolumeCleanups(created.value["id"])
      ensures r.Ok? <==> created.Ok? && "id" in created.value && EchoedName(created.value) == Some(name) &&
                         statusWait.Pass? && shown.Ok?
      ensures r.Ok? ==> r == shown
      ensures created.Ok? && "id" in created.value && EchoedName(created.value).None? ==> r == Err(KeyError("name"))
      ensures cleanupWaits == old(cleanupWaits) && disks == old(disks)
      ensures testFile == old(testFile) && filePath == old(filePath) && waitIndex == old(waitIndex)
      ensures old(Valid()) ==> Valid()
    {
      if created.Err? {
        return created;
      }
      var volume := created.value;
      if "id" !in volume {
        return Err(KeyError("id"));
      }
      var id := volume["id"];
      AddCleanup(Plain("volumes_client.wait_for_resource_deletion"), [id], map[]);
      AddCleanup(DeleteWrapper("volumes_client.delete_volume"), [id], map[]);
      if "display_name" in volume {
        if name != volume["display_name"] {
          return Err(AssertionFailed(name + " != " + volume["display_name"]));
        }
      } else if "name" !in volume {
        return Err(KeyError("name"));
      } else if name != volume["name"] {
        return Err(AssertionFailed(name + " != " + volume["name"]));
      }
      if statusWait.Fail? {
        return Err(statusWait.error);
      }
      return shown;
    }

    /** create_server after the boot answered `created` (the server's id),
        and the final show answered `shown`. With wait_on_delete a plain
        wait for termination is pushed first; then the delete goes on the
        stack and the wait for termination, with the server's id and the
        servers client, into cleanup_waits. */
    method CreateServer(created: Result<string>, waitOnDelete: bool, shown: Result<map<string, string>>)
      returns (r: Result<map<string, string>>)
      modifies this
      ensures created.Err? ==> r == Err(created.error) && cleanups == old(cleanups) && cleanupWaits == old(cleanupWaits)
      ensures created.Ok? ==>
        r == shown &&
        cleanups == old(cleanups) +
          (if waitOnDelete
           then [CleanupEntry(Plain("wait_for_server_termination"), ["servers_client", created.value], map[])]
           else []) +
          [CleanupEntry(DeleteWrapper("servers_client.delete_server"), [created.value], map[])] &&
        cleanupWaits == old(cleanupWaits) +
          [WaitRecordFor("wait_for_server_termination", created.value, "server_id", Some("servers_client"))]
      ensures disks == old(disks) && testFile == old(testFile) && filePath == old(filePath)
      ensures waitIndex == old(waitIndex)
      ensures old(Valid()) ==> Valid()
    {
      if created.Err? {
        return Err(created.error);
      }
      var id := created.value;
      if waitOnDelete {
        AddCleanup(Plain("wait_for_server_termination"), ["servers_client", id], map[]);
      }
      AddCleanupWithWait("wait_for_server_termination", id, "server_id",
                         DeleteWrapper("servers_client.delete_server"), Some([id]), None, Some("servers_client"));
      return shown;
    }

    /** _create_subnet: the allocation loop, then the delete of the subnet
        pushed through delete_wrapper. The CIDR check runs before the push,
        so a subnet created on another block than the one asked for gets no
        cleanup. */
    method CreateSubnet(cands: seq<string>, inUse: string -> Result<bool>, create: string -> Result<Subnets.Subnet>)
      returns (r: Result<Subnets.Subnet>, attempts: seq<string>)
      modifies this
      ensures var s := Subnets.SearchCidrs(cands, inUse, create);
        r == Subnets.Outcome(s.end) && attempts == s.attempts
      ensures r.Ok? ==> cleanups == old(cleanups) + [CleanupEntry(DeleteWrapper("subnet.delete"), [r.value.id], map[])]
      ensures r.Err? ==> cleanups == old(cleanups)
      ensures cleanupWaits == old(cleanupWaits) && disks == old(disks)
      ensures testFile == old(testFile) && filePath == old(filePath) && waitIndex == old(waitIndex)
      ensures old(Valid()) ==> Valid()
    {
      r, attempts := Subnets.AllocateSubnet(cands, inUse, create);
      if r.Ok? {
        AddCleanup(DeleteWrapper("subnet.delete"), [r.value.id], map[]);
      }
    }

    /** add_disk once the attach script answered `attached`: the disk's
        removal is pushed and its name recorded. */
    method AddDisk(instance: string, pos: LisSizes.Position, vhdType: string, attached: Outcome) returns (r: Outcome)
      modifies this
      ensures r == attached
      ensures attached.Fail? ==> cleanups == old(cleanups) && disks == old(disks)
      ensures attached.Pass? ==>
        var name := LisSizes.DiskName(instance, pos, vhdType);
        cleanups == old(cleanups) + [CleanupEntry(Plain("remove_disk"), [instance, name], map[])] &&
        disks == old(disks) + [name]
      ensures cleanupWaits == old(cleanupWaits) && testFile == old(testFile) && filePath == old(filePath)
      ensures waitIndex == old(waitIndex)
      ensures old(Valid()) ==> Valid()
    {
      if attached.Fail? {
        return attached;
      }
      var name := LisSizes.DiskName(instance, pos, vhdType);
      AddCleanup(Plain("remove_disk"), [instance, name], map[]);
      disks := disks + [name];
      return attached;
    }

    /** add_pass_disk: the same with the PassThrough disk name. */
    method AddPassDisk(instance: string, pos: LisSizes.Position, attached: Outcome) returns (r: Outcome)
      modifies this
      ensures r == attached
      ensures attached.Fail? ==> cleanups == old(cleanups) && disks == old(disks)
      ensures attached.Pass? ==>
        var name := LisSizes.PassDiskName(instance, pos);
        cleanups == old(cleanups) + [CleanupEntry(Plain("remove_disk"), [instance, name], map[])] &&
        disks == old(disks) + [name]
      ensures cleanupWaits == old(cleanupWaits) && testFile == old(testFile) && filePath == old(filePath)
      ensures waitIndex == old(waitIndex)
      ensures old(Valid()) ==> Valid()
    {
      if attached.Fail? {
        return attached;
      }
      var name := LisSizes.PassDiskName(instance, pos);
      AddCleanup(Plain("remove_disk"), [instance, name], map[]);
      disks := disks + [name];
      return attached;
    }

    /** add_diff_disk: the same with the differencing disk name. */
    method AddDiffDisk(instance: string, pos: LisSizes.Position, vhdType: string, attached: Outcome) returns (r: Outcome)
      modifies this
      ensures r == attached
      ensures attached.Fail? ==> cleanups == old(cleanups) && disks == old(disks)
      ensures attached.Pass? ==>
        var name := LisSizes.DiffDiskName(instance, pos, vhdType);
        cleanups == old(cleanups) + [CleanupEntry(Plain("remove_disk"), [instance, name], map[])] &&
        disks == old(disks) + [name]
      ensures cleanupWaits == old(cleanupWaits) && testFile == old(testFile) && filePath == old(filePath)
      ensures waitIndex == old(waitIndex)
      ensures old(Valid()) ==> Valid()
    {
      if attached.Fail? {
        return attached;
      }
      var name := LisSizes.DiffDiskName(instance, pos, vhdType);
      AddCleanup(Plain("remove_disk"), [instance, name], map[]);
      disks := disks + [name];
      return attached;
    }

    /** create_test_file: look up the default VHD directory (`vhdPath`),
        name the file after the time stamp, parse the size, run fsutil
        (whose output is `out`), insist that the output reports the file
        created, and push its removal. A failed lookup raises before
        anything is set. */
    method CreateTestFile(size: string, vhdPath: Result<string>, timestamp: string, out: Result<string>)
      returns (r: Result<int>)
      modifies this
      ensures vhdPath.Err? ==> r == Err(vhdPath.error) && testFile == old(testFile) && filePath == old(filePath)
      ensures vhdPath.Ok? ==> testFile == "testfile-" + timestamp + ".file" &&
                              filePath == TestFilePath(vhdPath.value, timestamp)
      ensures vhdPath.Ok? && LisSizes.TestFileSize(size).Err? ==> r == LisSizes.TestFileSize(size)
      ensures r.Ok? <==> vhdPath.Ok? && LisSizes.TestFileSize(size).Ok? && out.Ok? && Contains(out.value, "is created")
      ensures r.Ok? ==> r == LisSizes.TestFileSize(size) &&
                        cleanups == old(cleanups) + [CleanupEntry(Plain("remove_file"), [filePath], map[])]
      ensures r.Err? ==> cleanups == old(cleanups)
      ensures cleanupWaits == old(cleanupWaits) && disks == old(disks) && waitIndex == old(waitIndex)
      ensures old(Valid()) ==> Valid()
    {
      if vhdPath.Err? {
        return Err(vhdPath.error);
      }
      testFile := "testfile-" + timestamp + ".file";
      filePath := RStrip(vhdPath.value) + "\\" + testFile;
      var parsed := LisSizes.TestFileSize(size);
      if parsed.Err? {
        return parsed;
      }
      if out.Err? {
        return Err(out.error);
      }
      if !Contains(out.value, "is created") {
        return Err(Raised("ERROR: Could not create file " + filePath));
      }
      AddCleanup(Plain("remove_file"), [filePath], map[]);
      return parsed;
    }
  }

  /** A test that boots a server (with or without wait_on_delete) and
      creates a volume, then tears down: the calls are those
      ServerThenVolume describes. */
  method ServerAndVolumeTeardown(serverId: string, volumeId: string, volumeName: string, waitOnDelete: bool,
                                 respond: Call -> Outcome)
    returns (calls: seq<Call>)
    ensures calls ==
      [CleanupCall(CleanupEntry(DeleteWrapper("volumes_client.delete_volume"), [volumeId], map[])),
       CleanupCall(CleanupEntry(Plain("volumes_client.wait_for_resource_deletion"), [volumeId], map[])),
       CleanupCall(CleanupEntry(DeleteWrapper("servers_client.delete_server"), [serverId], map[]))] +
      (if waitOnDelete
       then [CleanupCall(CleanupEntry(Plain("wait_for_server_termination"), ["servers_client", serverId], map[]))]
       else []) +
      [WaiterCall("wait_for_server_termination",
                  map["server_id" := IdValue(serverId)][ClientKey := ClientValue("servers_client")])]
  {
    var t := new TestCase();
    t.SetUp([]);
    var server := t.CreateServer(Ok(serverId), waitOnDelete, Ok(map["id" := serverId]));
    var volume := t.CreateVolume(volumeName, Ok(map["id" := volumeId, "display_name" := volumeName]), Pass,
                                 Ok(map["id" := volumeId]));
    assert t.cleanups == [WaitEntry] + ServerCleanups(serverId, waitOnDelete) + VolumeCleanups(volumeId);
    assert t.cleanupWaits == [ServerWaitRecord(serverId)];
    ServerThenVolume(serverId, volumeId, waitOnDelete, respond);
    var errors;
    calls, errors := t.DoCleanups(respond);
  }
}
