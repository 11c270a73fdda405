/** Toast notifications (src/components/Toast.tsx): the list kept by
    `useToast`, its append/remove/update reducers and shortcuts, and the
    auto-dismiss delay each toast item picks. Ids are random in the
    application; here the caller supplies them. */
module Toast {
  import opened Common

  datatype ToastType = Success | Error | Info | Loading

  datatype Toast = Toast(id: string, message: string, kind: ToastType, duration: Option<real>)

  /** The auto-dismiss delay when a toast has none (or has 0). */
  const DefaultDuration := 3000.0

  /** `showToast(message, type = 'info', duration)`: append one toast and
      return its id. */
  function ShowToast(ts: seq<Toast>, id: string, message: string, kind: Option<ToastType>, duration: Option<real>): (r: (seq<Toast>, string))
    ensures |r.0| == |ts| + 1 && r.0[..|ts|] == ts
    ensures r.0[|ts|].id == id == r.1 && r.0[|ts|].message == message && r.0[|ts|].duration == duration
    ensures r.0[|ts|].kind == if kind.Some? then kind.value else Info
  {
    var t := Toast(id, message, kind.GetOr(Info), duration);
    assert (ts + [t])[..|ts|] == ts;
    (ts + [t], id)
  }

  /** `removeToast(id)`: keep the toasts with another id. */
  function RemoveToast(ts: seq<Toast>, id: string): (r: seq<Toast>)
    ensures |r| <= |ts|
    ensures forall t :: t in r <==> t in ts && t.id != id
  {
    if |ts| == 0 then []
    else (if ts[0].id == id then [] else [ts[0]]) + RemoveToast(ts[1..], id)
  }

  /** Removal keeps the order of the rest: it works piecewise. */
  lemma {:induction false} RemoveAppend(a: seq<Toast>, b: seq<Toast>, id: string)
    ensures RemoveToast(a + b, id) == RemoveToast(a, id) + RemoveToast(b, id)
  {
    if |a| == 0 {
      assert a + b == b;
    } else {
      assert (a + b)[1..] == a[1..] + b;
      RemoveAppend(a[1..], b, id);
    }
  }

  /** Removing an id nobody has changes nothing. */
  lemma {:induction false} RemoveAbsent(ts: seq<Toast>, id: string)
    requires forall k :: 0 <= k < |ts| ==> ts[k].id != id
    ensures RemoveToast(ts, id) == ts
  {
    if |ts| > 0 {
      RemoveAbsent(ts[1..], id);
    }
  }

  /** Showing a toast under a fresh id and removing that id gives the list
      back. */
  lemma ShowThenRemove(ts: seq<Toast>, id: string, message: string, kind: Option<ToastType>, duration: Option<real>)
    requires forall k :: 0 <= k < |ts| ==> ts[k].id != id
    ensures RemoveToast(ShowToast(ts, id, message, kind, duration).0, id) == ts
  {
    var t := Toast(id, message, kind.GetOr(Info), duration);
    RemoveAppend(ts, [t], id);
    RemoveAbsent(ts, id);
    assert [t][1..] == [];
  }

  /** `Partial<Toast>`: each key is present or not; a present `duration`
      may itself be undefined. */
  datatype ToastUpdate = ToastUpdate(
    id: Option<string>,
    message: Option<string>,
    kind: Option<ToastType>,
    duration: Option<Option<real>>)

  /** `{ ...toast, ...updates }`. */
  function Merge(t: Toast, u: ToastUpdate): Toast
  {
    Toast(u.id.GetOr(t.id), u.message.GetOr(t.message), u.kind.GetOr(t.kind), u.duration.GetOr(t.duration))
  }

  /** `updateToast(id, updates)`: merge the update into every toast with the
      id, in place. */
  function UpdateToast(ts: seq<Toast>, id: string, u: ToastUpdate): (r: seq<Toast>)
    ensures |r| == |ts|
    ensures forall k :: 0 <= k < |ts| ==> r[k] == if ts[k].id == id then Merge(ts[k], u) else ts[k]
  {
    if |ts| == 0 then []
    else [if ts[0].id == id then Merge(ts[0], u) else ts[0]] + UpdateToast(ts[1..], id, u)
  }

  const NoUpdate := ToastUpdate(None, None, None, None)

  /** An empty update, or one for an id nobody has, changes nothing; an
      update that keeps the id leaves the same toasts to remove under it. */
  lemma UpdateFrames(ts: seq<Toast>, id: string, u: ToastUpdate)
    ensures UpdateToast(ts, id, NoUpdate) == ts
    ensures (forall k :: 0 <= k < |ts| ==> ts[k].id != id) ==> UpdateToast(ts, id, u) == ts
    ensures u.id.None? ==> RemoveToast(UpdateToast(ts, id, u), id) == RemoveToast(ts, id)
  {
    if u.id.None? {
      RemoveUpdated(ts, id, u);
    }
  }

  lemma {:induction false} RemoveUpdated(ts: seq<Toast>, id: string, u: ToastUpdate)
    requires u.id.None?
    ensures RemoveToast(UpdateToast(ts, id, u), id) == RemoveToast(ts, id)
  {
    if |ts| > 0 {
      var r := UpdateToast(ts, id, u);
      assert r[1..] == UpdateToast(ts[1..], id, u);
      RemoveUpdated(ts[1..], id, u);
    }
  }

  // ---------------------------------------------------------------------
  // Shortcuts
  // ---------------------------------------------------------------------

  function ShowSuccess(ts: seq<Toast>, id: string, message: string, duration: Option<real>): (seq<Toast>, string)
  {
    ShowToast(ts, id, message, Some(Success), duration)
  }

  function ShowError(ts: seq<Toast>, id: string, message: string, duration: Option<real>): (seq<Toast>, string)
  {
    ShowToast(ts, id, message, Some(Error), duration)
  }

  function ShowInfo(ts: seq<Toast>, id: string, message: string, duration: Option<real>): (seq<Toast>, string)
  {
    ShowToast(ts, id, message, Some(Info), duration)
  }

  /** `loading(message)` passes no duration. */
  function ShowLoading(ts: seq<Toast>, id: string, message: string): (seq<Toast>, string)
  {
    ShowToast(ts, id, message, Some(Loading), None)
  }

  // ---------------------------------------------------------------------
  // One toast item
  // ---------------------------------------------------------------------

  /** The delay after which a toast item removes itself: none for a loading
      toast, otherwise `duration || 3000`. */
  function AutoDismiss(t: Toast): (d: Option<real>)
    ensures d.None? <==> t.kind == Loading
    ensures d.Some? ==> d.value != 0.0
  {
    if t.kind == Loading then None
    else if t.duration.None? || t.duration.value == 0.0 then Some(DefaultDuration)
    else Some(t.duration.value)
  }

  /** Only a toast that is not loading can be clicked away. */
  predicate Closable(t: Toast)
  {
    t.kind != Loading
  }

  /** The container renders nothing for an empty list. */
  predicate ContainerVisible(ts: seq<Toast>)
  {
    |ts| > 0
  }

  /** The shortcuts show one toast of their type; every kind but loading
      can be closed and dismisses itself, after its own duration or after
      3000 ms when it has none; a loading toast does neither. */
  lemma ShortcutsBehave(ts: seq<Toast>, id: string, message: string, duration: Option<real>)
    ensures var s := ShowSuccess(ts, id, message, duration).0[|ts|];
      s.kind == Success && Closable(s)
      && AutoDismiss(s) == Some(if duration.Some? && duration.value != 0.0 then duration.value else DefaultDuration)
    ensures var e := ShowError(ts, id, message, duration).0[|ts|];
      e.kind == Error && Closable(e) && AutoDismiss(e).Some?
    ensures var i := ShowInfo(ts, id, message, duration).0[|ts|];
      i.kind == Info && Closable(i) && AutoDismiss(i).Some?
    ensures var l := ShowLoading(ts, id, message).0[|ts|];
      l.kind == Loading && l.duration.None? && !Closable(l) && AutoDismiss(l).None?
    ensures ShowToast(ts, id, message, None, None).0[|ts|].kind == Info
    ensures ContainerVisible(ShowLoading(ts, id, message).0)
  {
  }

  /** A toast can be closed by a click exactly when it will also dismiss
      itself: a loading toast stays until its id is removed or updated. */
  lemma ClosableIffDismisses(t: Toast)
    ensures Closable(t) <==> AutoDismiss(t).Some?
  {
  }

  /** Turning a loading toast into a result (the usual update) makes it
      closable and self-dismissing, at the same place in the list. */
  lemma LoadingResolved(ts: seq<Toast>, k: nat, kind: ToastType, message: string)
    requires k < |ts| && ts[k].kind == Loading && ts[k].duration.None? && kind != Loading
    ensures var r := UpdateToast(ts, ts[k].id, ToastUpdate(None, Some(message), Some(kind), None));
      && r[k].id == ts[k].id && r[k].message == message
      && Closable(r[k]) && AutoDismiss(r[k]) == Some(DefaultDuration)
  {
    var u := ToastUpdate(None, Some(message), Some(kind), None);
    var r := UpdateToast(ts, ts[k].id, u);
    assert r[k] == Merge(ts[k], u);
  }
}
