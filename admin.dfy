/** The event approval queue of the admin dashboard: approving an item
    rewrites its status, rejecting removes it, and the queue shows the items
    still pending. Each operation returns a new list. */
module Admin {

  datatype ApprovalStatus = Pending | Approved

  datatype Approval = Approval(id: int, organizer: string, event: string, date: string, status: ApprovalStatus)

  /** `a` is `b` with some elements left out, the rest in their original order. */
  predicate IsSubsequence<T(==)>(a: seq<T>, b: seq<T>)
    decreases |b|
  {
    if a == [] then true
    else if b == [] then false
    else if a[0] == b[0] then IsSubsequence(a[1..], b[1..])
    else IsSubsequence(a, b[1..])
  }

  lemma {:induction false} SubsequenceTail<T>(a: seq<T>, b: seq<T>)
    requires a != [] && IsSubsequence(a, b)
    ensures IsSubsequence(a[1..], b)
    decreases |b|, 0
  {
    if a[0] != b[0] {
      SubsequenceTail(a, b[1..]);
      SubsequenceSkip(a[1..], b[1..], b[0]);
      assert b == [b[0]] + b[1..];
    } else {
      SubsequenceSkip(a[1..], b[1..], b[0]);
      assert b == [b[0]] + b[1..];
    }
  }

  /** Putting an element in front of `b` keeps `a` a subsequence of it. */
  lemma {:induction false} SubsequenceSkip<T>(a: seq<T>, b: seq<T>, x: T)
    requires IsSubsequence(a, b)
    ensures IsSubsequence(a, [x] + b)
    decreases |b|, 1
  {
    var xb := [x] + b;
    assert xb[1..] == b;
    if a != [] && a[0] == x {
      SubsequenceTail(a, b);
    }
  }

  /** `handleApprove(id)`: every item with that id gets status APPROVED. */
  function Approve(items: seq<Approval>, id: int): (r: seq<Approval>)
    ensures |r| == |items|
    ensures forall i | 0 <= i < |items| ::
              r[i] == if items[i].id == id then items[i].(status := Approved) else items[i]
  {
    if items == [] then []
    else [if items[0].id == id then items[0].(status := Approved) else items[0]] + Approve(items[1..], id)
  }

  /** The items that `filter(pred)` keeps: in order, with their multiplicities. */
  function Reject(items: seq<Approval>, id: int): (r: seq<Approval>)
    ensures IsSubsequence(r, items)
    ensures forall x :: multiset(r)[x] == if x.id == id then 0 else multiset(items)[x]
  {
    if items == [] then []
    else
      var rest := Reject(items[1..], id);
      assert items == [items[0]] + items[1..];
      if items[0].id == id then
        SubsequenceSkip(rest, items[1..], items[0]);
        rest
      else
        var r := [items[0]] + rest;
        assert r[1..] == rest;
        r
  }

  /** The queue on screen: `approvals.filter(a => a.status === 'PENDING')`. */
  function PendingView(items: seq<Approval>): (r: seq<Approval>)
    ensures IsSubsequence(r, items)
    ensures forall x :: multiset(r)[x] == if x.status == Pending then multiset(items)[x] else 0
  {
    if items == [] then []
    else
      var rest := PendingView(items[1..]);
      assert items == [items[0]] + items[1..];
      if items[0].status != Pending then
        SubsequenceSkip(rest, items[1..], items[0]);
        rest
      else
        var r := [items[0]] + rest;
        assert r[1..] == rest;
        r
  }

  /** The badge: the number of pending items. */
  function PendingCount(items: seq<Approval>): nat
  {
    |PendingView(items)|
  }

  /** The number of pending items that carry `id`. */
  function PendingWithId(items: seq<Approval>, id: int): nat
  {
    if items == [] then 0
    else (if items[0].id == id && items[0].status == Pending then 1 else 0) + PendingWithId(items[1..], id)
  }

  predicate Absent(items: seq<Approval>, id: int)
  {
    forall i | 0 <= i < |items| :: items[i].id != id
  }

  /** Approving twice is approving once. */
  lemma ApproveIdempotent(items: seq<Approval>, id: int)
    ensures Approve(Approve(items, id), id) == Approve(items, id)
  {
    var once := Approve(items, id);
    assert forall i | 0 <= i < |once| :: Approve(once, id)[i] == once[i];
  }

  /** Rejecting twice is rejecting once. */
  lemma {:induction false} RejectIdempotent(items: seq<Approval>, id: int)
    ensures Reject(Reject(items, id), id) == Reject(items, id)
  {
    if items != [] {
      RejectIdempotent(items[1..], id);
      if items[0].id != id {
        var r := Reject(items, id);
        assert r == [items[0]] + Reject(items[1..], id);
        assert r[1..] == Reject(items[1..], id);
      }
    }
  }

  /** Approving or rejecting an id no item has changes nothing. */
  lemma AbsentIdNoOp(items: seq<Approval>, id: int)
    requires Absent(items, id)
    ensures Approve(items, id) == items
    ensures Reject(items, id) == items
  {
    assert forall i | 0 <= i < |items| :: Approve(items, id)[i] == items[i];
    AbsentRejectNoOp(items, id);
  }

  lemma {:induction false} AbsentRejectNoOp(items: seq<Approval>, id: int)
    requires Absent(items, id)
    ensures Reject(items, id) == items
  {
    if items != [] {
      var rest := items[1..];
      assert items[0].id != id;
      assert forall i | 0 <= i < |rest| :: rest[i] == items[i + 1];
      AbsentRejectNoOp(rest, id);
      RejectKeeps(items, id);
      HeadTail(items);
    }
  }

  lemma HeadTail(items: seq<Approval>)
    requires items != []
    ensures items == [items[0]] + items[1..]
  {
  }

  /** `filter` keeps a first item without the id in front of the rest. */
  lemma RejectKeeps(items: seq<Approval>, id: int)
    requires items != [] && items[0].id != id
    ensures Reject(items, id) == [items[0]] + Reject(items[1..], id)
  {
  }

  /** After approving, the queue holds no item with that id. */
  lemma ApproveLeavesNoPending(items: seq<Approval>, id: int)
    ensures forall x | x in PendingView(Approve(items, id)) :: x.id != id
  {
    var r := Approve(items, id);
    forall x | x in PendingView(r) ensures x.id != id {
      PendingViewExact(r, x);
      var i :| 0 <= i < |r| && r[i] == x;
    }
  }

  /** Approving drops the badge by the number of pending items that had the id. */
  lemma {:induction false} ApprovePendingCount(items: seq<Approval>, id: int)
    ensures PendingCount(Approve(items, id)) == PendingCount(items) - PendingWithId(items, id)
  {
    if items != [] {
      var r := Approve(items, id);
      ApprovePendingCount(items[1..], id);
      assert r[1..] == Approve(items[1..], id);
      PendingViewCons(r);
      PendingViewCons(items);
    }
  }

  /** After rejecting, the queue holds no item with that id, and the badge
      drops by the number of pending items that had it. */
  lemma {:induction false} RejectClearsPending(items: seq<Approval>, id: int)
    ensures forall x | x in PendingView(Reject(items, id)) :: x.id != id
    ensures PendingCount(Reject(items, id)) == PendingCount(items) - PendingWithId(items, id)
  {
    var r := Reject(items, id);
    forall x | x in PendingView(r) ensures x.id != id {
      assert multiset(PendingView(r))[x] > 0;
      assert multiset(r)[x] > 0;
    }
    if items != [] {
      RejectClearsPending(items[1..], id);
      PendingViewCons(items);
      if items[0].id != id {
        assert r == [items[0]] + Reject(items[1..], id);
        assert r[1..] == Reject(items[1..], id);
        PendingViewCons(r);
      }
    }
  }

  lemma PendingViewCons(items: seq<Approval>)
    requires items != []
    ensures PendingCount(items) == (if items[0].status == Pending then 1 else 0) + PendingCount(items[1..])
  {
  }

  /** The badge reads 0, and "All caught up" shows, exactly when no item is PENDING. */
  lemma {:induction false} PendingCountZero(items: seq<Approval>)
    ensures PendingCount(items) == 0 <==> forall i | 0 <= i < |items| :: items[i].status != Pending
  {
    if items != [] {
      PendingViewCons(items);
      PendingCountZero(items[1..]);
      assert forall i | 1 <= i < |items| :: items[i] == items[1..][i - 1];
    }
  }

  /** The queue is exactly the PENDING items in their list order: an item
      is shown as often as it occurs pending in the list. */
  lemma PendingViewExact(items: seq<Approval>, x: Approval)
    ensures x in PendingView(items) <==> x in items && x.status == Pending
    ensures IsSubsequence(PendingView(items), items)
  {
    assert x in PendingView(items) <==> multiset(PendingView(items))[x] > 0;
    assert x in items <==> multiset(items)[x] > 0;
  }
}
