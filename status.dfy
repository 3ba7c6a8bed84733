/** The order-status hook: once it is given an order id it walks the
    statuses pending, preparing, ready, one per timer firing, and keeps a
    loading flag raised until the last one. Each firing of the timer is one
    call of UpdateStatus; the delays themselves are not modelled. */
module StatusSim {
  import opened Types

  /** The scripted status flow. */
  const StatusFlow: seq<Status> := [Pending, Preparing, Ready]

  /** JavaScript truthiness of a string that may be null: `!orderId` is
      true for null and for the empty string. */
  predicate IsTruthy(orderId: Option<string>) {
    orderId.Some? && orderId.value != ""
  }

  /** The state of one use of the order-status hook. */
  class StatusSimulator {
    var status: Status
    var isLoading: bool
    /** The update closure's position in the flow. */
    var currentIndex: nat
    /** The statuses set since the last start, oldest first. */
    ghost var Emitted: seq<Status>

    ghost predicate Valid()
      reads this
    {
      && currentIndex <= |StatusFlow|
      && Emitted == StatusFlow[..currentIndex]
      && (currentIndex > 0 ==> status == StatusFlow[currentIndex - 1])
      && (isLoading ==> currentIndex < |StatusFlow|)
    }

    /** The hook's initial state: pending, not loading. */
    constructor ()
      ensures Valid()
      ensures status == Pending && !isLoading && currentIndex == 0 && Emitted == []
    {
      status := Pending;
      isLoading := false;
      currentIndex := 0;
      Emitted := [];
    }

    /** The effect run for `orderId`: with no id, or the empty one, nothing
        happens and no timer is scheduled; with any other id, loading starts
        and the update closure starts at the head of the flow. The status
        itself is left as it was until the first firing. */
    method Start(orderId: Option<string>)
      requires Valid()
      modifies this
      ensures Valid()
      ensures !IsTruthy(orderId) ==> isLoading == old(isLoading) && currentIndex == old(currentIndex) && Emitted == old(Emitted)
      ensures IsTruthy(orderId) ==> isLoading && currentIndex == 0 && Emitted == []
      ensures status == old(status)
    {
      if !IsTruthy(orderId) {
        return;
      }
      isLoading := true;
      currentIndex := 0;
      Emitted := [];
    }

    /** One firing of the update timer. While the flow is not exhausted it
        sets the next status; after the last one it lowers the loading flag.
        Once the flow is exhausted a firing changes nothing. */
    method UpdateStatus()
      requires Valid()
      modifies this
      ensures Valid()
      ensures old(currentIndex) < |StatusFlow| ==>
        && currentIndex == old(currentIndex) + 1
        && status == StatusFlow[old(currentIndex)]
        && Emitted == old(Emitted) + [status]
        && isLoading == (old(isLoading) && currentIndex < |StatusFlow|)
      ensures old(currentIndex) < |StatusFlow| && old(currentIndex) > 0 ==>
        Rank(status) == Rank(old(status)) + 1
      ensures old(currentIndex) >= |StatusFlow| ==>
        status == old(status) && isLoading == old(isLoading) &&
        currentIndex == old(currentIndex) && Emitted == old(Emitted)
    {
      if currentIndex < |StatusFlow| {
        status := StatusFlow[currentIndex];
        currentIndex := currentIndex + 1;
        Emitted := Emitted + [status];
        if currentIndex >= |StatusFlow| {
          isLoading := false;
        }
      }
    }

    /** The effect's cleanup: loading stops. The pending timer is not
        cancelled, so later firings still advance the status. */
    method Teardown()
      requires Valid()
      modifies this
      ensures Valid()
      ensures !isLoading
      ensures status == old(status) && currentIndex == old(currentIndex) && Emitted == old(Emitted)
    {
      isLoading := false;
    }
  }

  /** Prefixes of the flow visit the statuses in order, each once. */
  lemma {:induction false} FlowPrefixMovesForward(n: nat)
    requires n <= |StatusFlow|
    ensures forall i :: 0 <= i < n ==> Rank(StatusFlow[..n][i]) == i
    ensures forall i, j :: 0 <= i < j < n ==> StatusFlow[..n][i] != StatusFlow[..n][j]
  {
    forall i | 0 <= i < n ensures Rank(StatusFlow[..n][i]) == i {
      assert StatusFlow[..n][i] == StatusFlow[i];
    }
  }

  /** The statuses a simulator has set since its last start visit pending,
      preparing and ready in that order, each at most once, always moving
      forward, and the current status is the last of them. */
  lemma EmittedMovesForward(sim: StatusSimulator)
    requires sim.Valid()
    ensures |sim.Emitted| <= 3
    ensures forall i :: 0 <= i < |sim.Emitted| ==> Rank(sim.Emitted[i]) == i
    ensures forall i, j :: 0 <= i < j < |sim.Emitted| ==> sim.Emitted[i] != sim.Emitted[j]
    ensures sim.Emitted != [] ==> sim.status == sim.Emitted[|sim.Emitted| - 1]
  {
    FlowPrefixMovesForward(sim.currentIndex);
  }

  /** A tracking screen's timeline: start with `orderId`, then four timer
      firings if the start scheduled a timer, none otherwise. Returns the
      status after each firing and the loading flag just after the start
      and after each firing. */
  method TrackingTimeline(orderId: string) returns (statuses: seq<Status>, loading: seq<bool>)
    ensures orderId == "" ==> statuses == [] && loading == [false]
    ensures orderId != "" ==> statuses == [Pending, Preparing, Ready, Ready]
    ensures orderId != "" ==> loading == [true, true, true, false, false]
  {
    var sim := new StatusSimulator();
    sim.Start(Some(orderId));
    statuses, loading := [], [sim.isLoading];
    var firings := if sim.isLoading then 4 else 0;
    var firing := 0;
    while firing < firings
      invariant 0 <= firing <= firings && sim.Valid()
      invariant firings == 4 <==> orderId != ""
      invariant sim.currentIndex == if firing < 3 then firing else 3
      invariant statuses == StatusFlow[..sim.currentIndex] + (if firing == 4 then [Ready] else [])
      invariant orderId != "" ==> loading == [true, true, true, false, false][..firing + 1]
      invariant orderId == "" ==> loading == [false]
      invariant sim.isLoading == (orderId != "" && firing < 3)
      decreases firings - firing
    {
      sim.UpdateStatus();
      statuses := statuses + [sim.status];
      loading := loading + [sim.isLoading];
      firing := firing + 1;
    }
  }
}
