/** The toast stack: notices are appended with a fresh id and removed by id. */
module Toast {
  import opened Wrappers

  datatype Variant = Info | Success | Error

  /**
   * The `variant` key of what a caller passes: missing, present but `undefined`, or
   * a value. Spreading the caller's object last means a present `undefined`
   * overrides the `info` default.
   */
  datatype VariantField = Absent | Undefined | Given(v: Variant)

  /** What a caller passes to `toast(...)`. */
  datatype ToastInput = ToastInput(title: Option<string>, description: Option<string>, variant: VariantField)

  /** A toast on the stack. */
  datatype Toast = Toast(id: string, title: Option<string>, description: Option<string>, variant: Option<Variant>)

  /** The variant stored for a new toast: `{ variant: v ?? "info", ...input }`. */
  function StoredVariant(f: VariantField): Option<Variant> {
    match f
    case Absent => Some(Info)
    case Undefined => None
    case Given(v) => Some(v)
  }

  /** `addToast`: one toast with id `id` goes at the end, copying the caller's fields. */
  function AddToast(toasts: seq<Toast>, input: ToastInput, id: string): (r: seq<Toast>)
    ensures |r| == |toasts| + 1 && r[..|toasts|] == toasts
    ensures r[|toasts|].id == id && r[|toasts|].title == input.title && r[|toasts|].description == input.description
    ensures input.variant.Given? ==> r[|toasts|].variant == Some(input.variant.v)
    ensures input.variant.Absent? ==> r[|toasts|].variant == Some(Info)
  {
    toasts + [Toast(id, input.title, input.description, StoredVariant(input.variant))]
  }

  /** `removeToast`: every toast with that id goes, the rest keep their order. */
  function RemoveToast(toasts: seq<Toast>, id: string): (r: seq<Toast>)
    ensures |r| <= |toasts|
  {
    if |toasts| == 0 then []
    else if toasts[0].id == id then RemoveToast(toasts[1..], id)
    else [toasts[0]] + RemoveToast(toasts[1..], id)
  }

  /** The survivors of a removal are exactly the toasts with another id. */
  lemma {:induction false} RemoveToastMembers(toasts: seq<Toast>, id: string)
    ensures forall t :: t in RemoveToast(toasts, id) <==> t in toasts && t.id != id
  {
    if |toasts| > 0 {
      RemoveToastMembers(toasts[1..], id);
      assert forall t :: t in toasts <==> t == toasts[0] || t in toasts[1..];
    }
  }

  /** Removal works piecewise, so the survivors keep their relative order. */
  lemma {:induction false} RemoveAppend(a: seq<Toast>, b: seq<Toast>, id: string)
    ensures RemoveToast(a + b, id) == RemoveToast(a, id) + RemoveToast(b, id)
  {
    if |a| > 0 {
      assert (a + b)[0] == a[0];
      assert (a + b)[1..] == a[1..] + b;
      RemoveAppend(a[1..], b, id);
    } else {
      assert a + b == b;
    }
  }

  /** Removing an id nobody has changes nothing. */
  lemma {:induction false} RemoveAbsent(toasts: seq<Toast>, id: string)
    requires forall i :: 0 <= i < |toasts| ==> toasts[i].id != id
    ensures RemoveToast(toasts, id) == toasts
  {
    if |toasts| > 0 {
      RemoveAbsent(toasts[1..], id);
    }
  }

  /** Removing twice is removing once: the timer and the close button may both fire. */
  lemma RemoveIdempotent(toasts: seq<Toast>, id: string)
    ensures RemoveToast(RemoveToast(toasts, id), id) == RemoveToast(toasts, id)
  {
    var r := RemoveToast(toasts, id);
    RemoveToastMembers(toasts, id);
    assert forall i :: 0 <= i < |r| ==> r[i] in r;
    RemoveAbsent(r, id);
  }

  /** With a fresh id, a toast's removal undoes its addition. */
  lemma AddThenRemove(toasts: seq<Toast>, input: ToastInput, id: string)
    requires forall i :: 0 <= i < |toasts| ==> toasts[i].id != id
    ensures RemoveToast(AddToast(toasts, input, id), id) == toasts
  {
    var t := Toast(id, input.title, input.description, StoredVariant(input.variant));
    RemoveAppend(toasts, [t], id);
    RemoveAbsent(toasts, id);
    assert RemoveToast([t], id) == [];
  }

  /** The card's `toast.variant ?? "info"`. */
  function DisplayedVariant(t: Toast): (v: Variant)
    ensures t.variant.None? ==> v == Info
    ensures t.variant.Some? ==> v == t.variant.value
  {
    t.variant.GetOr(Info)
  }

  /** A new toast is drawn with the caller's variant, or `info` when the caller gave none. */
  lemma AddedToastVariant(toasts: seq<Toast>, input: ToastInput, id: string)
    ensures DisplayedVariant(AddToast(toasts, input, id)[|toasts|])
      == (if input.variant.Given? then input.variant.v else Info)
  {
  }
}
