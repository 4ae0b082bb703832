/**
 * The shared objects behind request coalescing.
 *
 * A leader and its waiters keep pointers to one activeScanState object; the map entry for the
 * key may disappear, or point to a newer object, while they still hold the old one.  Each
 * method below is one section that the code runs atomically, and its contract says that it
 * performs the corresponding move of ScanCoalescing.Coordinator on exactly the object it was
 * given.
 */
module SyncService {
  import opened Prelude
  import opened ScanCoalescing

  class ActiveScanState {
    var inProgress: bool
    var waitChan: seq<ScanResult>
    var closed: bool
    var subscribers: nat

    ghost const key: string
    /** The position of this object in the order of creation. */
    ghost const gen: nat

    constructor (ghost key: string, ghost gen: nat)
      ensures this.key == key && this.gen == gen
      ensures Value() == Scan(key, true, 0, [], false)
    {
      inProgress, waitChan, closed, subscribers := true, [], false, 0;
      this.key, this.gen := key, gen;
    }

    ghost function Value(): Scan
      reads this
    {
      Scan(key, inProgress, subscribers, waitChan, closed)
    }
  }

  class SyncServiceServer {
    var activeScans: map<string, ActiveScanState>
    /** Every scan state ever created, oldest first. */
    ghost var created: seq<ActiveScanState>

    constructor ()
      ensures Valid() && View() == Init(0).coord
      ensures created == []
    {
      activeScans := map[];
      created := [];
    }

    ghost predicate Valid()
      reads this
    {
      && (forall i :: 0 <= i < |created| ==> created[i].gen == i)
      && (forall k :: k in activeScans ==>
            activeScans[k].gen < |created| && created[activeScans[k].gen] == activeScans[k])
    }

    /** The shared state as a value. */
    ghost function View(): (view: Coordinator)
      requires Valid()
      reads this, created
      ensures view.WellFormed()
    {
      Coordinator(
        map k | k in activeScans :: activeScans[k].gen,
        seq(|created|, i requires 0 <= i < |created| reads this, created => created[i].Value()))
    }

    /** A new scan is published under its key. */
    method StartScan(key: string) returns (state: ActiveScanState)
      requires Valid() && !View().Joins(key)
      modifies this
      ensures Valid() && fresh(state)
      ensures View() == old(View()).Enter(key)
      ensures created == old(created) + [state] && state.gen == |old(created)|
    {
      state := new ActiveScanState(key, |created|);
      activeScans := activeScans[key := state];
      created := created + [state];
    }

    /** The first critical section of getOrWaitForScan. */
    method EnterScan(key: string) returns (leader: bool, state: ActiveScanState)
      requires Valid()
      modifies this, created
      ensures Valid()
      ensures leader == !old(View()).Joins(key)
      ensures View() == old(View()).Enter(key)
      ensures created == if leader then old(created) + [state] else old(created)
      ensures leader ==> fresh(state)
      ensures state.gen == old(View()).Target(key) && state == created[state.gen]
    {
      leader := !(key in activeScans && activeScans[key].inProgress);
      if leader {
        state := StartScan(key);
      } else {
        state := activeScans[key];
        state.subscribers := state.subscribers + 1;
      }
    }

    /** One send of the broadcast loop; it blocks while the channel is full. */
    method SendResult(state: ActiveScanState, result: ScanResult)
      requires Valid() && state in created
      requires !state.closed && |state.waitChan| < CHANNEL_CAPACITY
      modifies state
      ensures Valid() && unchanged(this)
      ensures View() == old(View()).Send(state.gen, result)
    {
      state.waitChan := state.waitChan + [result];
    }

    /** The end of the broadcast, still under the mutex. */
    method FinishScan(key: string, state: ActiveScanState)
      requires Valid() && state in created && key == state.key
      requires !state.closed
      modifies this`activeScans, state
      ensures Valid() && created == old(created)
      ensures View() == old(View()).Finish(state.gen)
    {
      activeScans := activeScans - {key};
      state.closed := true;
      assert View().scans == old(View()).Finish(state.gen).scans;
    }

    /** A receive that can proceed: the oldest value, or nil from a closed and empty channel. */
    method Receive(state: ActiveScanState) returns (result: Option<ScanResult>)
      requires Valid() && state in created
      requires state.waitChan != [] || state.closed
      modifies state
      ensures Valid() && unchanged(this)
      ensures old(state.waitChan) == [] ==> result == None && View() == old(View())
      ensures old(state.waitChan) != [] ==>
                result == Some(old(state.waitChan)[0]) && View() == old(View()).Receive(state.gen)
    {
      if state.waitChan == [] {
        result := None;
      } else {
        result := Some(state.waitChan[0]);
        state.waitChan := state.waitChan[1..];
      }
    }
  }
}
