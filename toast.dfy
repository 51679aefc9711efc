/** The toast list: `show` appends a message under a fresh id, `remove` and the auto-dismiss drop it again. */
module Toast {
  import opened Wrappers
  import opened Query

  datatype ToastType = Success | Error | Info

  datatype ToastItem = ToastItem(id: int, message: string, kind: ToastType)

  /** Ids strictly increase along the list, so no two items share one. */
  ghost predicate IdsIncreasing(items: seq<ToastItem>) {
    forall i, j :: 0 <= i < j < |items| ==> items[i].id < items[j].id
  }

  /** `prev.filter(t => t.id !== id)`. */
  function RemoveId(items: seq<ToastItem>, id: int): (r: seq<ToastItem>)
    ensures forall i :: 0 <= i < |r| ==> r[i].id != id
    ensures multiset(r) <= multiset(items)
  {
    Filter(items, (t: ToastItem) => t.id != id)
  }

  /** Every item with another id survives removal. */
  lemma RemoveKeepsOthers(items: seq<ToastItem>, id: int, t: ToastItem)
    ensures t in RemoveId(items, id) <==> t in items && t.id != id
  {
    FilterMember(items, (x: ToastItem) => x.id != id, t);
  }

  /** Removing an id no item carries changes nothing; in particular removing twice is removing once. */
  lemma RemoveAbsent(items: seq<ToastItem>, id: int)
    requires forall i :: 0 <= i < |items| ==> items[i].id != id
    ensures RemoveId(items, id) == items
  {
    FilterAll(items, (t: ToastItem) => t.id != id);
  }

  lemma RemoveIdempotent(items: seq<ToastItem>, id: int)
    ensures RemoveId(RemoveId(items, id), id) == RemoveId(items, id)
  {
    RemoveAbsent(RemoveId(items, id), id);
  }

  /** An item whose id no other item carries is removed on its own, the rest kept in order. */
  lemma RemoveBetween(before: seq<ToastItem>, t: ToastItem, after: seq<ToastItem>)
    requires forall i :: 0 <= i < |before| ==> before[i].id != t.id
    requires forall i :: 0 <= i < |after| ==> after[i].id != t.id
    ensures RemoveId(before + [t] + after, t.id) == before + after
  {
    var p := (x: ToastItem) => x.id != t.id;
    FilterAll(before, p);
    FilterDropsOne(t, p);
    FilterConcat(before, [t], p);
    assert Filter(before + [t], p) == before + [];
    assert before + [] == before;
    FilterAll(after, p);
    FilterConcat(before + [t], after, p);
  }

  /** With increasing ids, removing the id of item `k` takes out exactly that item and keeps the order. */
  lemma RemoveOne(items: seq<ToastItem>, k: int)
    requires IdsIncreasing(items) && 0 <= k < |items|
    ensures RemoveId(items, items[k].id) == items[..k] + items[k + 1..]
  {
    var before, after := items[..k], items[k + 1..];
    forall i | 0 <= i < |before| ensures before[i].id != items[k].id {
      assert before[i] == items[i];
    }
    forall i | 0 <= i < |after| ensures after[i].id != items[k].id {
      assert after[i] == items[k + 1 + i];
    }
    assert items == before + [items[k]] + after;
    RemoveBetween(before, items[k], after);
  }

  /** Removal keeps the remaining items in their order, so ids still increase. */
  lemma {:induction false} RemoveKeepsIncreasing(items: seq<ToastItem>, id: int)
    requires IdsIncreasing(items)
    ensures IdsIncreasing(RemoveId(items, id))
  {
    if items != [] {
      var rest := RemoveId(items[1..], id);
      RemoveKeepsIncreasing(items[1..], id);
      forall j | 0 <= j < |rest| ensures items[0].id < rest[j].id {
        FilterMember(items[1..], (t: ToastItem) => t.id != id, rest[j]);
        var m :| 0 <= m < |items[1..]| && items[1..][m] == rest[j];
        assert items[m + 1] == rest[j];
      }
    }
  }

  /** The dismissal of a toast just shown, with an id above all others, restores the list as it was. */
  lemma DismissAfterShow(items: seq<ToastItem>, t: ToastItem)
    requires forall i :: 0 <= i < |items| ==> items[i].id < t.id
    ensures RemoveId(items + [t], t.id) == items
  {
    var p := (x: ToastItem) => x.id != t.id;
    FilterConcat(items, [t], p);
    FilterAll(items, p);
  }

  /**
   * The provider's state: its items and the `nextId` counter. The counter
   * lives at module level in the program, shared by every provider; the
   * constructor takes its current value.
   */
  class ToastProvider {
    var items: seq<ToastItem>
    var nextId: int

    /** Ids strictly increase and all lie below the counter. */
    ghost predicate Valid()
      reads this
    {
      IdsIncreasing(items) && forall i :: 0 <= i < |items| ==> items[i].id < nextId
    }

    constructor (counter: int)
      ensures Valid() && items == [] && nextId == counter
    {
      items := [];
      nextId := counter;
    }

    /** `show(message, type = "success")`: returns the id the auto-dismiss will remove. */
    method Show(message: string, kind: Option<ToastType>) returns (id: int)
      requires Valid()
      modifies this
      ensures Valid()
      ensures id == old(nextId) && nextId == old(nextId) + 1
      ensures items == old(items) + [ToastItem(id, message, kind.GetOr(ToastType.Success))]
    {
      id := nextId;
      nextId := nextId + 1;
      items := items + [ToastItem(id, message, kind.GetOr(ToastType.Success))];
    }

    /** `remove(id)`, and the auto-dismiss of the toast with that id. */
    method Remove(id: int)
      requires Valid()
      modifies this
      ensures Valid()
      ensures items == RemoveId(old(items), id) && nextId == old(nextId)
    {
      var kept := RemoveId(items, id);
      forall i | 0 <= i < |kept| ensures kept[i].id < nextId {
        assert kept[i] in multiset(items);
      }
      RemoveKeepsIncreasing(items, id);
      items := kept;
    }
  }
}
