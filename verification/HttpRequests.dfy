/** HttpService's request map as the object that owns it, updated in place. */
module HttpRequests {
  import opened Common
  import opened CancelHandshake

  lemma NonEmpty(s: set<int>)
    requires s != {}
    ensures exists i :: i in s
  {
    assert (forall i :: i !in s) ==> s == {};
  }

  class HttpService {
    var mRequests: map<int, Request>
    var mNextId: int

    constructor ()
      ensures mRequests == map[] && mNextId == 1
    {
      mRequests, mNextId := map[], 1;
    }

    method NewRequestId() returns (id: int)
      modifies this`mNextId
      ensures id == old(mNextId) && mNextId == id + 1
    {
      id := mNextId;
      mNextId := mNextId + 1;
    }

    method Begin(id: int, now: int)
      modifies this`mRequests
      ensures mRequests == BeginRequest(old(mRequests), id, now)
      ensures id in mRequests && mRequests[id].running
      ensures FlagSeen(mRequests, id) <==> FlagSeen(old(mRequests), id)
    {
      if id !in mRequests {
        mRequests := mRequests[id := Request(false, false, now)];
      }
      mRequests := mRequests[id := mRequests[id].(running := true)];
    }

    method End(id: int)
      modifies this`mRequests
      ensures mRequests == EndRequest(old(mRequests), id)
    {
      mRequests := mRequests - {id};
    }

    /** Drops the entries that were never claimed, one at a time. */
    method DropStale(now: int)
      modifies this`mRequests
      ensures mRequests == Purge(old(mRequests), now)
      ensures forall i :: i in old(mRequests) && old(mRequests)[i].running ==>
                i in mRequests && mRequests[i] == old(mRequests)[i]
    {
      ghost var before := mRequests;
      var todo := mRequests.Keys;
      while todo != {}
        invariant todo <= mRequests.Keys
        invariant forall i :: i in mRequests ==> i in before && mRequests[i] == before[i]
        invariant forall i :: i in before && i !in todo ==> (i in mRequests <==> !Expired(before[i], now))
        decreases |todo|
      {
        NonEmpty(todo);
        var i :| i in todo;
        todo := todo - {i};
        if Expired(mRequests[i], now) {
          mRequests := mRequests - {i};
        }
      }
      assert forall i :: i in mRequests <==> i in Purge(before, now);
      assert forall i :: i in mRequests ==> mRequests[i] == Purge(before, now)[i];
      SameMap(mRequests, Purge(before, now));
    }

    /** A cancel of an unknown id is remembered; of a known one, shown to it. */
    method Cancel(id: int, now: int)
      modifies this`mRequests
      ensures mRequests == CancelRequest(old(mRequests), id, now)
      ensures FlagSeen(mRequests, id)
      ensures forall i :: i in old(mRequests) && old(mRequests)[i].running ==>
                i in mRequests && mRequests[i].running
    {
      if id !in mRequests {
        DropStale(now);
        mRequests := mRequests[id := Request(false, false, now)];
      }
      mRequests := mRequests[id := mRequests[id].(canceled := true)];
    }
  }
}
