/**
 The overlap lock over durable claims: what it remembers of each handle, and what releasing
 a handle can touch.

 Release: a handle lapses the row its last acquisition wrote, or no row; its own acquisition
 when owners are never reused.  ReusedOwnerReleasesAnother: once an owner comes back,
 that need not be the acquisition the handle came from.
 */
module OverlapLocks {
  import opened Results
  import opened Claims

  datatype Handle = Handle(key: string, owner: string)

  function HandleKey(h: Handle): string {
    h.key + "#" + h.owner
  }

  function Subject(taskId: string): string {
    "task:" + taskId
  }

  /** Two tasks never share a subject. */
  lemma SubjectsAreInjective(a: string, b: string)
    ensures Subject(a) == Subject(b) <==> a == b
    ensures "task:" <= Subject(a) && Subject(a)[5..] == a
  {
    assert Subject(a)[..5] == "task:" && Subject(b)[5..] == b;
  }

  lemma FirstOfKey(h: Handle)
    ensures HandleKey(h)[0] == if h.key == "" then '#' else h.key[0]
    ensures h.key != "" ==> h.key[0] in h.key
  {
  }

  /** Two handles are remembered apart, as long as neither key holds the separator. */
  lemma {:induction false} KeysAreInjective(a: Handle, b: Handle)
    requires '#' !in a.key && '#' !in b.key && HandleKey(a) == HandleKey(b)
    ensures a == b
    decreases |a.key|
  {
    var k := HandleKey(a);
    if a.key == "" && b.key == "" {
      assert k[1..] == a.owner && k[1..] == b.owner;
    } else if a.key == "" || b.key == "" {
      FirstOfKey(a);
      FirstOfKey(b);
      assert false;
    } else {
      assert k[0] == a.key[0] && k[0] == b.key[0];
      var a', b' := Handle(a.key[1..], a.owner), Handle(b.key[1..], b.owner);
      assert HandleKey(a') == k[1..] && HandleKey(b') == k[1..];
      KeysAreInjective(a', b');
      assert a.key == [a.key[0]] + a.key[1..] && b.key == [b.key[0]] + b.key[1..];
    }
  }

  class OverlapLock {
    const claims: ClaimStore
    const lease: int
    var held: map<string, Claim>
    ghost var issued: seq<(Handle, Claim)>

    constructor (claims: ClaimStore, lease: int)
      ensures this.claims == claims && this.lease == lease && Valid() && issued == []
    {
      this.claims := claims;
      this.lease := lease;
      held := map[];
      issued := [];
    }

    /** What is remembered under a handle's key is the claim of an acquisition that gave out that handle, the last one. */
    ghost predicate Valid()
      reads this
    {
      && (forall i | 0 <= i < |issued| :: '#' !in issued[i].0.key && issued[i].1.subject == issued[i].0.key && issued[i].1.owner == issued[i].0.owner)
      && (forall i | 0 <= i < |issued| && HandleKey(issued[i].0) in held :: IsLatest(issued, issued[i].0, held[HandleKey(issued[i].0)]))
    }

    static ghost predicate IsLatest(issued: seq<(Handle, Claim)>, handle: Handle, claim: Claim) {
      exists i | 0 <= i < |issued| :: issued[i] == (handle, claim) && forall j | i < j < |issued| :: issued[j].0 != handle
    }

    method TryAcquire(taskId: string, owner: string, now: int, seen: Option<Row>) returns (r: Result<Option<Handle>, ClaimError>)
      requires Valid() && '#' !in taskId
      modifies this, claims
      ensures Valid()
      ensures claims.rows == AfterAcquire(old(claims.rows), Subject(taskId), owner, now, now + lease, seen)
      ensures r.Ok? && r.value.Some? <==>
                Wins(old(claims.rows), Subject(taskId), now, seen)
                && ValidClaim(Acquired(Subject(taskId), owner, now, now + lease, seen))
      ensures match r
              case Ok(Some(handle)) =>
                && handle == Handle(Subject(taskId), owner) && handle.key == "task:" + taskId
                && issued == old(issued) + [(handle, Acquired(Subject(taskId), owner, now, now + lease, seen))]
                && held == old(held)[HandleKey(handle) := Acquired(Subject(taskId), owner, now, now + lease, seen)]
              case _ => issued == old(issued) && held == old(held)
    {
      var subject := Subject(taskId);
      var claim := claims.TryAcquire(subject, owner, lease, now, seen);
      if claim.Err? {
        return Err(claim.error);
      }
      if claim.value.None? {
        return Ok(None);
      }
      var handle := Handle(subject, owner);
      ghost var was := issued;
      held := held[HandleKey(handle) := claim.value.value];
      issued := issued + [(handle, claim.value.value)];
      assert issued[|was|] == (handle, claim.value.value);
      forall i | 0 <= i < |issued| && HandleKey(issued[i].0) in held
        ensures IsLatest(issued, issued[i].0, held[HandleKey(issued[i].0)])
      {
        if issued[i].0 != handle {
          if HandleKey(issued[i].0) == HandleKey(handle) {
            KeysAreInjective(issued[i].0, handle);
          }
          var before := held[HandleKey(issued[i].0)];
          assert IsLatest(was, issued[i].0, before);
          var k :| 0 <= k < |was| && was[k] == (issued[i].0, before) && forall j | k < j < |was| :: was[j].0 != issued[i].0;
          assert issued[k] == was[k];
        }
      }
      r := Ok(Some(handle));
    }

    /** The i-th acquisition gave out the handle, and no later one did: none at all when owners never come back. */
    ghost predicate IssuedLast(handle: Handle, i: nat)
      reads this
    {
      i < |issued| && issued[i].0 == handle && forall j | i < j < |issued| :: issued[j].0 != handle
    }

    /**
     Releasing acts on the row its handle's last acquisition wrote, or on no row; held or not,
     the handle is forgotten.
     */
    method Release(handle: Handle, now: int)
      requires Valid()
      modifies this, claims
      ensures Valid() && issued == old(issued) && HandleKey(handle) !in held
      ensures claims.rows == if HandleKey(handle) in old(held) then AfterRelease(old(claims.rows), old(held)[HandleKey(handle)], now)
                             else old(claims.rows)
      ensures forall i: nat | old(IssuedLast(handle, i)) ::
                claims.rows == old(claims.rows) || claims.rows == AfterRelease(old(claims.rows), issued[i].1, now)
    {
      var key := HandleKey(handle);
      if key !in held {
        return;
      }
      var claim := held[key];
      forall i: nat | IssuedLast(handle, i) ensures claim == issued[i].1 {
        assert IsLatest(issued, handle, claim);
      }
      held := held - {key};
      claims.Release(claim, now);
    }
  }

  /** One lock, one task, one owner twice: the first handle, released late, lapses the second claim. */
  method ReusedOwnerReleasesAnother() returns (store: ClaimStore)
    ensures "task:t" in store.rows && store.rows["task:t"] == Row("o", 10, 11, 2)
  {
    store := new ClaimStore();
    var lock := new OverlapLock(store, 10);
    assert "o"[0] in "o" && Named("o");
    assert Subject("t") == "task:t";
    var first := lock.TryAcquire("t", "o", 0, None);
    var row := store.rows["task:t"];
    var second := lock.TryAcquire("t", "o", 10, Some(row));
    lock.Release(first.value.value, 11);
  }
}
