/** The cleanup and async-delete coordination of ScenarioTest, as values:
    the entries of the test's cleanup stack, the wait records of
    cleanup_waits, what the harness calls when it drains them, and the
    order it calls them in.

    The cleanup stack is drained the way unittest's doCleanups drains it:
    the entry registered last runs first, a failing entry is recorded and
    the next one still runs. The wait records are drained first-in
    first-out by _wait_for_cleanups, which setUp registers as a cleanup of
    its own before anything else of the test; so it runs after every
    cleanup registered later. Remote calls are answered by a `respond`
    function. */
module Cleanup {
  import opened Errors

  /* ---------------- entries and records ---------------- */

  /** What a cleanup entry calls. */
  datatype Callable =
    | WaitForCleanups                   // self._wait_for_cleanups
    | DeleteWrapper(deleteOp: string)   // self.delete_wrapper with this delete operation first
    | Plain(name: string)               // any other callable: a waiter, remove_disk, remove_file, ...

  /** One addCleanup(fn, *args, **kwargs). A bound method of a resource
      (subnet.delete) is written with the resource's id as its argument. */
  datatype CleanupEntry = CleanupEntry(fn: Callable, args: seq<string>, kwargs: map<string, string>)

  const WaitEntry: CleanupEntry := CleanupEntry(WaitForCleanups, [], map[])

  const WaiterKey: string := "waiter_callable"
  const ClientKey: string := "client"

  /** The values a wait record holds: the waiter, a resource id, a client. */
  datatype WaitValue = WaiterFn(name: string) | IdValue(id: string) | ClientValue(client: string)

  /** One dict of cleanup_waits. */
  type WaitRecord = map<string, WaitValue>

  /** The dict addCleanup_with_wait appends: the waiter under
      "waiter_callable", the id under thing_id_param, and the client under
      "client" when a waiter client is given. As with a Python dict
      literal, a later key overwrites an earlier equal one. */
  function WaitRecordFor(waiter: string, thingId: string, thingIdParam: string, waiterClient: Option<string>): (r: WaitRecord)
    ensures r.Keys == {WaiterKey, thingIdParam} + (if waiterClient.Some? then {ClientKey} else {})
    ensures thingIdParam != WaiterKey ==> r[WaiterKey] == WaiterFn(waiter)
    ensures waiterClient.Some? ==> r[ClientKey] == ClientValue(waiterClient.value)
    ensures (thingIdParam != ClientKey || waiterClient.None?) ==> r[thingIdParam] == IdValue(thingId)
  {
    var d := map[WaiterKey := WaiterFn(waiter)][thingIdParam := IdValue(thingId)];
    if waiterClient.Some? then d[ClientKey := ClientValue(waiterClient.value)] else d
  }

  /** A record _wait_for_cleanups can call: it holds a waiter under
      "waiter_callable". */
  predicate WellFormed(w: WaitRecord) {
    WaiterKey in w && w[WaiterKey].WaiterFn?
  }

  /** A record built with an id parameter other than "waiter_callable" can
      be called, and its waiter receives the id under that parameter and
      the client, if one was given, and nothing else. */
  lemma WaitRecordCall(waiter: string, thingId: string, thingIdParam: string, waiterClient: Option<string>)
    requires thingIdParam != WaiterKey
    ensures WellFormed(WaitRecordFor(waiter, thingId, thingIdParam, waiterClient))
    ensures var kw := WaitRecordFor(waiter, thingId, thingIdParam, waiterClient) - {WaiterKey};
      kw == if waiterClient.None? then map[thingIdParam := IdValue(thingId)]
            else map[thingIdParam := IdValue(thingId)][ClientKey := ClientValue(waiterClient.value)]
  {
    var r := WaitRecordFor(waiter, thingId, thingIdParam, waiterClient);
    var kw := r - {WaiterKey};
    var expected := if waiterClient.None? then map[thingIdParam := IdValue(thingId)]
                    else map[thingIdParam := IdValue(thingId)][ClientKey := ClientValue(waiterClient.value)];
    assert kw.Keys == expected.Keys;
    forall k | k in kw ensures kw[k] == expected[k] {
    }
  }

  /* ---------------- delete_wrapper ---------------- */

  /** delete_wrapper: the delete operation's outcome with NotFound turned
      into a normal return. */
  function DeleteWrapped(o: Outcome): (r: Outcome)
    ensures r.Pass? <==> (o.Pass? || o.error == NotFound)
    ensures r.Fail? ==> r == o
  {
    if o.Fail? && o.error == NotFound then Pass else o
  }

  /** A remote service holding a set of resource ids: deleting a present id
      removes it, deleting an absent one raises NotFound. */
  function RemoteDelete(existing: set<string>, id: string): (set<string>, Outcome) {
    if id in existing then (existing - {id}, Pass) else (existing, Fail(NotFound))
  }

  /** delete_wrapper is idempotent: deleting the same id through it twice
      returns normally both times, whether or not the id still existed,
      and leaves the id gone. */
  lemma DeleteWrapperIdempotent(existing: set<string>, id: string)
    ensures var (after1, o1) := RemoteDelete(existing, id);
            var (after2, o2) := RemoteDelete(after1, id);
            DeleteWrapped(o1) == Pass && DeleteWrapped(o2) == Pass && after2 == existing - {id}
  {
  }

  /* ---------------- what draining calls ---------------- */

  /** A remote call made while draining: a cleanup entry's callable with its
      arguments, or a waiter with its keyword arguments. */
  datatype Call = CleanupCall(entry: CleanupEntry) | WaiterCall(waiter: string, kwargs: WaitRecord)

  /** What _wait_for_cleanups did: the waiter calls it made, cleanup_waits
      afterwards (each visited dict has lost "waiter_callable"), and the
      exception that stopped it, if any. */
  datatype WaitsRun = WaitsRun(calls: seq<Call>, waits: seq<WaitRecord>, failure: Option<Error>)

  /** _wait_for_cleanups: for each dict in order, pop "waiter_callable" and
      call it with the rest of the dict; the first exception ends the loop. */
  function RunWaits(ws: seq<WaitRecord>, respond: Call -> Outcome): (r: WaitsRun)
    ensures |r.waits| == |ws|
  {
    if ws == [] then WaitsRun([], [], None)
    else
      var w := ws[0];
      if WaiterKey !in w then WaitsRun([], ws, Some(KeyError(WaiterKey)))
      else
        var kwargs := w - {WaiterKey};
        match w[WaiterKey]
        case WaiterFn(name) =>
          var call := WaiterCall(name, kwargs);
          var o := respond(call);
          if o.Fail? then WaitsRun([call], [kwargs] + ws[1..], Some(o.error))
          else
            var rest := RunWaits(ws[1..], respond);
            WaitsRun([call] + rest.calls, [kwargs] + rest.waits, rest.failure)
        case _ => WaitsRun([], [kwargs] + ws[1..], Some(TypeError("wait value is not callable")))
  }

  /** The waits run first-in first-out: the k-th call is the k-th record's
      waiter with that record minus "waiter_callable", every call but the
      last returned normally, and the visited records are left without
      their waiter. When every record is well formed and every waiter
      returns, all of them are called. */
  lemma RunWaitsFacts(ws: seq<WaitRecord>, respond: Call -> Outcome)
    ensures var r := RunWaits(ws, respond); |r.calls| <= |ws|
    ensures var r := RunWaits(ws, respond);
      forall k :: 0 <= k < |r.calls| ==>
        WellFormed(ws[k]) && r.calls[k] == WaiterCall(ws[k][WaiterKey].name, ws[k] - {WaiterKey}) &&
        r.waits[k] == ws[k] - {WaiterKey}
    ensures var r := RunWaits(ws, respond);
      forall k :: 0 <= k < |r.calls| - 1 ==> respond(r.calls[k]) == Pass
    ensures var r := RunWaits(ws, respond); r.failure.None? ==> |r.calls| == |ws|
    ensures (forall k :: 0 <= k < |ws| ==>
               (WellFormed(ws[k]) && respond(WaiterCall(ws[k][WaiterKey].name, ws[k] - {WaiterKey})) == Pass)) ==>
            RunWaits(ws, respond).failure.None?
  {
    RunWaitsShape(ws, respond);
    RunWaitsProgress(ws, respond);
  }

  /** The k-th call is the k-th record's waiter, given the record without
      it. */
  lemma {:induction false} RunWaitsShape(ws: seq<WaitRecord>, respond: Call -> Outcome)
    ensures var r := RunWaits(ws, respond); |r.calls| <= |ws|
    ensures var r := RunWaits(ws, respond);
      forall k :: 0 <= k < |r.calls| ==>
        WellFormed(ws[k]) && r.calls[k] == WaiterCall(ws[k][WaiterKey].name, ws[k] - {WaiterKey}) &&
        r.waits[k] == ws[k] - {WaiterKey}
  {
    if ws != [] {
      RunWaitsShape(ws[1..], respond);
      var r := RunWaits(ws, respond);
      var rest := RunWaits(ws[1..], respond);
      if WellFormed(ws[0]) && respond(WaiterCall(ws[0][WaiterKey].name, ws[0] - {WaiterKey})) == Pass {
        forall k | 1 <= k < |r.calls|
          ensures r.calls[k] == rest.calls[k - 1] && r.waits[k] == rest.waits[k - 1] && ws[k] == ws[1..][k - 1]
        {
        }
      }
    }
  }

  /** Every waiter but the last one called returned; the run stops early
      only on a failure; and it does not fail when every record is well
      formed and every waiter returns. */
  lemma {:induction false} RunWaitsProgress(ws: seq<WaitRecord>, respond: Call -> Outcome)
    ensures var r := RunWaits(ws, respond);
      forall k :: 0 <= k < |r.calls| - 1 ==> respond(r.calls[k]) == Pass
    ensures var r := RunWaits(ws, respond); r.failure.None? ==> |r.calls| == |ws|
    ensures (forall k :: 0 <= k < |ws| ==>
               (WellFormed(ws[k]) && respond(WaiterCall(ws[k][WaiterKey].name, ws[k] - {WaiterKey})) == Pass)) ==>
            RunWaits(ws, respond).failure.None?
  {
    if ws != [] {
      RunWaitsProgress(ws[1..], respond);
      var r := RunWaits(ws, respond);
      var rest := RunWaits(ws[1..], respond);
      if WellFormed(ws[0]) && respond(WaiterCall(ws[0][WaiterKey].name, ws[0] - {WaiterKey})) == Pass {
        assert r.calls == [r.calls[0]] + rest.calls;
        forall k | 1 <= k < |r.calls| - 1 ensures respond(r.calls[k]) == Pass {
          assert r.calls[k] == rest.calls[k - 1];
        }
        assert (forall k :: 0 <= k < |ws| ==>
                 (WellFormed(ws[k]) && respond(WaiterCall(ws[k][WaiterKey].name, ws[k] - {WaiterKey})) == Pass)) ==>
               (forall k :: 0 <= k < |ws[1..]| ==>
                 (WellFormed(ws[1..][k]) &&
                  respond(WaiterCall(ws[1..][k][WaiterKey].name, ws[1..][k] - {WaiterKey})) == Pass)) by {
          forall k | 0 <= k < |ws[1..]| ensures ws[1..][k] == ws[k + 1] { }
        }
      }
    }
  }

  /** Running one cleanup entry: the calls it makes, cleanup_waits after it,
      and the errors the cleanup executor records for it. */
  datatype Step = Step(calls: seq<Call>, waits: seq<WaitRecord>, errors: seq<Error>)

  function OptionErrors(f: Option<Error>): seq<Error> {
    if f.Some? then [f.value] else []
  }

  /** The error(s) a plain or delete_wrapper entry leaves, from the answer
      to its call. */
  function EntryErrors(e: CleanupEntry, respond: Call -> Outcome): seq<Error> {
    var o := respond(CleanupCall(e));
    Failures(if e.fn.DeleteWrapper? then DeleteWrapped(o) else o)
  }

  function RunEntry(e: CleanupEntry, waits: seq<WaitRecord>, respond: Call -> Outcome): Step {
    if e.fn.WaitForCleanups? then
      var w := RunWaits(waits, respond);
      Step(w.calls, w.waits, OptionErrors(w.failure))
    else Step([CleanupCall(e)], waits, EntryErrors(e, respond))
  }

  /** The whole teardown: every call made, every error recorded, and
      cleanup_waits at the end. */
  datatype Drained = Drained(calls: seq<Call>, errors: seq<Error>, waits: seq<WaitRecord>)

  /** doCleanups over a stack of entries: take the last, run it, record its
      errors, go on with the rest. */
  function DrainSpec(entries: seq<CleanupEntry>, waits: seq<WaitRecord>, respond: Call -> Outcome): (r: Drained)
    ensures |r.waits| == |waits|
    decreases |entries|
  {
    if entries == [] then Drained([], [], waits)
    else
      var s := RunEntry(entries[|entries| - 1], waits, respond);
      var rest := DrainSpec(entries[..|entries| - 1], s.waits, respond);
      Drained(s.calls + rest.calls, s.errors + rest.errors, rest.waits)
  }

  /* ---------------- order of the teardown ---------------- */

  predicate NoWaitEntry(es: seq<CleanupEntry>) {
    forall i :: 0 <= i < |es| ==> !es[i].fn.WaitForCleanups?
  }

  /** The calls of a stack of plain entries, newest first. */
  function LifoCalls(es: seq<CleanupEntry>): (calls: seq<Call>)
    ensures |calls| == |es|
  {
    if es == [] then [] else [CleanupCall(es[|es| - 1])] + LifoCalls(es[..|es| - 1])
  }

  /** The errors of a stack of plain entries, newest first. */
  function LifoErrors(es: seq<CleanupEntry>, respond: Call -> Outcome): seq<Error> {
    if es == [] then [] else EntryErrors(es[|es| - 1], respond) + LifoErrors(es[..|es| - 1], respond)
  }

  /** The i-th call of a stack drain is the entry i places from the top. */
  lemma {:induction false} LifoCallsAt(es: seq<CleanupEntry>)
    ensures forall i :: 0 <= i < |es| ==> LifoCalls(es)[i] == CleanupCall(es[|es| - 1 - i])
  {
    if es != [] {
      LifoCallsAt(es[..|es| - 1]);
    }
  }

  /** Every failing entry's error is in the aggregate, however many other
      entries failed before or after it. */
  lemma {:induction false} LifoErrorsComplete(es: seq<CleanupEntry>, respond: Call -> Outcome)
    ensures forall i :: 0 <= i < |es| ==> forall err :: err in EntryErrors(es[i], respond) ==> err in LifoErrors(es, respond)
    ensures |LifoErrors(es, respond)| <= |es|
  {
    if es != [] {
      LifoErrorsComplete(es[..|es| - 1], respond);
      forall i | 0 <= i < |es| - 1 ensures es[i] == es[..|es| - 1][i] { }
    }
  }

  /** Draining entries none of which is _wait_for_cleanups calls each of
      them, newest first, and leaves cleanup_waits alone. */
  lemma {:induction false} DrainPlain(es: seq<CleanupEntry>, waits: seq<WaitRecord>, respond: Call -> Outcome)
    requires NoWaitEntry(es)
    ensures DrainSpec(es, waits, respond) == Drained(LifoCalls(es), LifoErrors(es, respond), waits)
  {
    if es != [] {
      DrainPlain(es[..|es| - 1], waits, respond);
    }
  }

  /** Entries registered after others are all drained before them. */
  lemma {:induction false} DrainConcat(pre: seq<CleanupEntry>, more: seq<CleanupEntry>, waits: seq<WaitRecord>, respond: Call -> Outcome)
    requires NoWaitEntry(more)
    ensures var d := DrainSpec(pre, waits, respond);
      DrainSpec(pre + more, waits, respond) ==
        Drained(LifoCalls(more) + d.calls, LifoErrors(more, respond) + d.errors, d.waits)
    decreases |more|
  {
    var d := DrainSpec(pre, waits, respond);
    if more == [] {
      assert pre + more == pre;
    } else {
      var init := more[..|more| - 1];
      var e := more[|more| - 1];
      assert (pre + more)[..|pre + more| - 1] == pre + init;
      assert (pre + more)[|pre + more| - 1] == e;
      assert !e.fn.WaitForCleanups?;
      assert RunEntry(e, waits, respond) == Step([CleanupCall(e)], waits, EntryErrors(e, respond));
      DrainConcat(pre, init, waits, respond);
      var x := DrainSpec(pre + init, waits, respond);
      assert DrainSpec(pre + more, waits, respond) ==
               Drained([CleanupCall(e)] + x.calls, EntryErrors(e, respond) + x.errors, x.waits);
      assert LifoCalls(more) == [CleanupCall(e)] + LifoCalls(init);
      assert LifoErrors(more, respond) == EntryErrors(e, respond) + LifoErrors(init, respond);
      AppendAssoc([CleanupCall(e)], LifoCalls(init), d.calls);
      AppendAssoc(EntryErrors(e, respond), LifoErrors(init, respond), d.errors);
    }
  }

  /** The decoupling of deletes from waits. When _wait_for_cleanups sits in
      the stack above the entries `pre` registered before setUp's own and
      below the entries `rest` registered by the test, draining calls the
      entries of `rest` newest first, then the waiters in registration
      order, then the entries of `pre`; the errors are gathered in that
      order too. */
  lemma DrainAfterSetUp(pre: seq<CleanupEntry>, rest: seq<CleanupEntry>, waits: seq<WaitRecord>, respond: Call -> Outcome)
    requires NoWaitEntry(pre) && NoWaitEntry(rest)
    ensures var w := RunWaits(waits, respond);
      DrainSpec(pre + [WaitEntry] + rest, waits, respond) ==
        Drained(LifoCalls(rest) + w.calls + LifoCalls(pre),
                LifoErrors(rest, respond) + OptionErrors(w.failure) + LifoErrors(pre, respond),
                w.waits)
  {
    var w := RunWaits(waits, respond);
    var pw := pre + [WaitEntry];
    DrainConcat(pw, rest, waits, respond);
    DrainWaitOnTop(pre, waits, respond);
    var lc, le := LifoCalls(rest), LifoErrors(rest, respond);
    AppendAssoc(lc, w.calls, LifoCalls(pre));
    AppendAssoc(le, OptionErrors(w.failure), LifoErrors(pre, respond));
  }

  /** Draining a stack whose top is _wait_for_cleanups: the waits, then
      the plain entries below it. */
  lemma DrainWaitOnTop(pre: seq<CleanupEntry>, waits: seq<WaitRecord>, respond: Call -> Outcome)
    requires NoWaitEntry(pre)
    ensures var w := RunWaits(waits, respond);
      DrainSpec(pre + [WaitEntry], waits, respond) ==
        Drained(w.calls + LifoCalls(pre), OptionErrors(w.failure) + LifoErrors(pre, respond), w.waits)
  {
    var pw := pre + [WaitEntry];
    assert pw[|pw| - 1] == WaitEntry && pw[..|pw| - 1] == pre;
    DrainPlain(pre, RunWaits(waits, respond).waits, respond);
  }

  /** `calls` calls the entries of `es` newest first. */
  predicate Newest(calls: seq<Call>, es: seq<CleanupEntry>) {
    |calls| == |es| && forall j :: 0 <= j < |es| ==> calls[|es| - 1 - j] == CleanupCall(es[j])
  }

  lemma LifoNewest(es: seq<CleanupEntry>)
    ensures Newest(LifoCalls(es), es)
  {
    LifoCallsAt(es);
    forall j | 0 <= j < |es| ensures LifoCalls(es)[|es| - 1 - j] == CleanupCall(es[j]) {
      assert es[|es| - 1 - (|es| - 1 - j)] == es[j];
    }
  }

  /** The same, call by call: the test's own cleanups come first, the
      newest at position 0; then the k-th waiter call is the k-th wait
      record's waiter with the record minus "waiter_callable"; then the
      cleanups registered before setUp, the oldest last. So every delete
      the test owes is issued before any wait starts. */
  lemma DeletesBeforeWaits(pre: seq<CleanupEntry>, rest: seq<CleanupEntry>, waits: seq<WaitRecord>, respond: Call -> Outcome)
    requires NoWaitEntry(pre) && NoWaitEntry(rest)
    ensures var d := DrainSpec(pre + [WaitEntry] + rest, waits, respond);
            var w := RunWaits(waits, respond);
      |d.calls| == |rest| + |w.calls| + |pre| && |w.calls| <= |waits| &&
      (forall j :: 0 <= j < |rest| ==> d.calls[|rest| - 1 - j] == CleanupCall(rest[j])) &&
      (forall k :: 0 <= k < |w.calls| ==>
         WellFormed(waits[k]) && d.calls[|rest| + k] == WaiterCall(waits[k][WaiterKey].name, waits[k] - {WaiterKey})) &&
      (forall j :: 0 <= j < |pre| ==> d.calls[|d.calls| - 1 - j] == CleanupCall(pre[j]))
  {
    DrainAfterSetUp(pre, rest, waits, respond);
    RunWaitsShape(waits, respond);
    LifoNewest(rest);
    LifoNewest(pre);
    CallsInOrder(DrainSpec(pre + [WaitEntry] + rest, waits, respond).calls, LifoCalls(rest), LifoCalls(pre),
                 pre, rest, waits, RunWaits(waits, respond).calls);
  }

  lemma CallsInOrder(calls: seq<Call>, lr: seq<Call>, lp: seq<Call>, pre: seq<CleanupEntry>, rest: seq<CleanupEntry>,
                     waits: seq<WaitRecord>, wcalls: seq<Call>)
    requires calls == lr + wcalls + lp
    requires Newest(lr, rest) && Newest(lp, pre)
    requires |wcalls| <= |waits|
    requires forall k :: 0 <= k < |wcalls| ==>
               WellFormed(waits[k]) && wcalls[k] == WaiterCall(waits[k][WaiterKey].name, waits[k] - {WaiterKey})
    ensures |calls| == |rest| + |wcalls| + |pre|
    ensures forall j :: 0 <= j < |rest| ==> calls[|rest| - 1 - j] == CleanupCall(rest[j])
    ensures forall k :: 0 <= k < |wcalls| ==>
              WellFormed(waits[k]) && calls[|rest| + k] == WaiterCall(waits[k][WaiterKey].name, waits[k] - {WaiterKey})
    ensures forall j :: 0 <= j < |pre| ==> calls[|calls| - 1 - j] == CleanupCall(pre[j])
  {
    forall j | 0 <= j < |rest| ensures calls[|rest| - 1 - j] == CleanupCall(rest[j]) {
      assert calls[|rest| - 1 - j] == lr[|rest| - 1 - j];
    }
    forall k | 0 <= k < |wcalls| ensures calls[|rest| + k] == wcalls[k] {
    }
    forall j | 0 <= j < |pre| ensures calls[|calls| - 1 - j] == CleanupCall(pre[j]) {
      assert calls[|calls| - 1 - j] == lp[|pre| - 1 - j];
    }
  }
}
