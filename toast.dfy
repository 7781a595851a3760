/**
 * The front end's toast store: a list of notices that `addToast` appends to and
 * `removeToast` filters by id. The id is drawn at random by the caller's runtime, so it is
 * a parameter here and nothing relies on it being fresh.
 */
module Toasts {
  import opened Wrappers

  datatype ToastType = Success | Error | Info

  datatype Toast = Toast(id: string, message: string, kind: ToastType)

  /** The list without the toasts carrying `id`, the rest in their order. */
  function Without(ts: seq<Toast>, id: string): (r: seq<Toast>)
    ensures |r| <= |ts|
    ensures forall t :: t in r <==> t in ts && t.id != id
  {
    if ts == [] then []
    else if ts[0].id == id then Without(ts[1..], id)
    else [ts[0]] + Without(ts[1..], id)
  }

  /** Removing distributes over concatenation, so the survivors keep their relative order. */
  lemma {:induction false} WithoutAppend(a: seq<Toast>, b: seq<Toast>, id: string)
    ensures Without(a + b, id) == Without(a, id) + Without(b, id)
  {
    if a != [] {
      assert (a + b)[0] == a[0] && (a + b)[1..] == a[1..] + b;
      WithoutAppend(a[1..], b, id);
      var tail := Without(a[1..], id);
      if a[0].id == id {
        assert Without(a + b, id) == tail + Without(b, id);
        assert Without(a, id) == tail;
      } else {
        assert Without(a + b, id) == [a[0]] + (tail + Without(b, id));
        assert Without(a, id) == [a[0]] + tail;
      }
    } else {
      assert a + b == b;
    }
  }

  /** Removing an id no toast carries changes nothing. */
  lemma {:induction false} WithoutAbsent(ts: seq<Toast>, id: string)
    requires forall i :: 0 <= i < |ts| ==> ts[i].id != id
    ensures Without(ts, id) == ts
  {
    if ts != [] {
      WithoutAbsent(ts[1..], id);
    }
  }

  /** Removing twice is removing once. */
  lemma WithoutIdempotent(ts: seq<Toast>, id: string)
    ensures Without(Without(ts, id), id) == Without(ts, id)
  {
    var r := Without(ts, id);
    assert forall i :: 0 <= i < |r| ==> r[i].id != id by {
      forall i | 0 <= i < |r| ensures r[i].id != id {
        assert r[i] in r;
      }
    }
    WithoutAbsent(r, id);
  }

  class ToastStore {
    var toasts: seq<Toast>

    constructor()
      ensures toasts == []
    {
      toasts := [];
    }

    /** addToast: one toast at the end, of type info unless one is given. */
    method AddToast(message: string, kind: Option<ToastType>, id: string)
      modifies this
      ensures toasts == old(toasts) + [Toast(id, message, kind.GetOr(Info))]
    {
      toasts := toasts + [Toast(id, message, kind.GetOr(Info))];
    }

    /**
     * removeToast, and the delayed removal addToast schedules, which runs the same filter:
     * every toast with that id goes, the rest stay in order.
     */
    method RemoveToast(id: string)
      modifies this
      ensures toasts == Without(old(toasts), id)
    {
      toasts := Without(toasts, id);
    }
  }

  /**
   * A toast added and then expired leaves the earlier toasts as removeToast would: all of
   * them when the id is fresh, and without any earlier toast that happened to draw the same id.
   */
  lemma AddThenExpire(ts: seq<Toast>, message: string, kind: ToastType, id: string)
    ensures Without(ts + [Toast(id, message, kind)], id) == Without(ts, id)
    ensures (forall i :: 0 <= i < |ts| ==> ts[i].id != id) ==> Without(ts + [Toast(id, message, kind)], id) == ts
  {
    WithoutAppend(ts, [Toast(id, message, kind)], id);
    assert Without([Toast(id, message, kind)], id) == [];
    if forall i :: 0 <= i < |ts| ==> ts[i].id != id {
      WithoutAbsent(ts, id);
    }
  }

  /** Removing two ids gives the same list in either order. */
  lemma {:induction false} WithoutCommutes(ts: seq<Toast>, a: string, b: string)
    ensures Without(Without(ts, a), b) == Without(Without(ts, b), a)
  {
    if ts != [] {
      WithoutCommutes(ts[1..], a, b);
      WithoutAppend([ts[0]], ts[1..], a);
      WithoutAppend([ts[0]], ts[1..], b);
      assert ts == [ts[0]] + ts[1..];
      WithoutAppend(Without([ts[0]], a), Without(ts[1..], a), b);
      WithoutAppend(Without([ts[0]], b), Without(ts[1..], b), a);
    }
  }
}
