/**
 The error state of one form field, as `showError` and `clearError` leave
 it: the `is-invalid` mark on the field and the `.invalid-feedback`
 elements that can carry its message.
 */
module ErrorPresenter {
  import opened Options
  import opened FieldValidation

  /**
   One feedback element: its `textContent` and whether its inline style shows
   it (`display: block`) or hides it (`display: none`). The script only ever
   writes one of its error messages or the empty string into it, so the text
   is kept as the message's key: `None` is `''`, `Some(k)` is `MessageText(k)`.
   */
  datatype Feedback = Feedback(text: Option<ErrorKind>, shown: bool)

  const Hidden := Feedback(None, false)

  /** The field's `aria-describedby`: absent, naming an element that exists, or naming none. */
  datatype Described = NotDescribed | DescribedBy(slot: Feedback) | Dangling

  /**
   A field's error state: the `is-invalid` mark, its `aria-describedby`
   target, and the `.invalid-feedback` elements inside the field's parent,
   in document order.
   */
  datatype FieldView = FieldView(invalid: bool, described: Described, parentFeedback: seq<Feedback>)

  /** The feedback elements the field's error can appear in. */
  function Slots(v: FieldView): seq<Feedback> {
    match v.described
    case DescribedBy(s) => [s]
    case _ => v.parentFeedback
  }

  /** Some feedback element of the field shows `msg`. */
  predicate Displays(v: FieldView, msg: ErrorKind) {
    exists k | 0 <= k < |Slots(v)| :: Slots(v)[k].shown && Slots(v)[k].text == Some(msg)
  }

  /** Looks like a field that was never shown an error: not marked invalid and no feedback element shown. */
  predicate Clean(v: FieldView) {
    !v.invalid && forall k | 0 <= k < |Slots(v)| :: !Slots(v)[k].shown
  }

  /** Only the first feedback element of the field, the one both operations address, can be shown. */
  predicate Tidy(v: FieldView) {
    forall k | 1 <= k < |Slots(v)| :: !Slots(v)[k].shown
  }

  // ---------------------------------------------------------------------
  // As written in script.js

  /**
   `showError` as written: it looks up the `aria-describedby` element and,
   when there is none, always appends a new feedback element, even if the
   parent already holds one.
   */
  function ShowErrorAsWritten(v: FieldView, msg: ErrorKind): (r: FieldView)
    ensures r.invalid && Displays(r, msg)
    ensures v.described.DescribedBy? ==>
      r.described == DescribedBy(Feedback(Some(msg), true)) && r.parentFeedback == v.parentFeedback
    ensures !v.described.DescribedBy? ==>
      r.described == v.described && r.parentFeedback == v.parentFeedback + [Feedback(Some(msg), true)]
  {
    match v.described
    case DescribedBy(_) =>
      var r := v.(invalid := true, described := DescribedBy(Feedback(Some(msg), true)));
      assert Slots(r)[0] == Feedback(Some(msg), true);
      r
    case _ =>
      var r := v.(invalid := true, parentFeedback := v.parentFeedback + [Feedback(Some(msg), true)]);
      assert Slots(r)[|v.parentFeedback|] == Feedback(Some(msg), true);
      r
  }

  /**
   `clearError` as written: it hides the `aria-describedby` element when
   the attribute is set (nothing when it names no element), and otherwise
   only the first feedback element of the parent.
   */
  function ClearErrorAsWritten(v: FieldView): (r: FieldView)
    ensures !r.invalid
    ensures r.described == (if v.described.DescribedBy? then DescribedBy(Hidden) else v.described)
    ensures v.described.NotDescribed? && |v.parentFeedback| > 0 ==>
      r.parentFeedback == v.parentFeedback[0 := Hidden]
    ensures !(v.described.NotDescribed? && |v.parentFeedback| > 0) ==>
      r.parentFeedback == v.parentFeedback
  {
    match v.described
    case DescribedBy(_) => v.(invalid := false, described := DescribedBy(Hidden))
    case Dangling => v.(invalid := false)
    case NotDescribed =>
      if |v.parentFeedback| == 0 then v.(invalid := false)
      else v.(invalid := false, parentFeedback := v.parentFeedback[0 := Hidden])
  }

  /**
   Counterexample: a field without `aria-describedby` that fails validation
   twice (each validation clears, then shows) and then passes keeps the
   first message visible although it is no longer marked invalid.
   */
  lemma StaleFeedbackWithoutDescribedBy(msg: ErrorKind)
    ensures var v0 := FieldView(false, NotDescribed, []);
            var v1 := ShowErrorAsWritten(ClearErrorAsWritten(v0), msg);
            var v2 := ShowErrorAsWritten(ClearErrorAsWritten(v1), msg);
            var v3 := ClearErrorAsWritten(v2);
            !v3.invalid && Displays(v3, msg) && !Clean(v3)
  {
    var v0 := FieldView(false, NotDescribed, []);
    var v1 := ShowErrorAsWritten(ClearErrorAsWritten(v0), msg);
    var v2 := ShowErrorAsWritten(ClearErrorAsWritten(v1), msg);
    var v3 := ClearErrorAsWritten(v2);
    assert v3.parentFeedback == [Hidden, Feedback(Some(msg), true)];
    assert Slots(v3)[1] == Feedback(Some(msg), true);
  }

  /**
   Counterexample: when `aria-describedby` names no element, the message
   `showError` appends is never hidden again.
   */
  lemma StaleFeedbackWithDanglingReference(msg: ErrorKind)
    ensures var v := ClearErrorAsWritten(ShowErrorAsWritten(FieldView(false, Dangling, []), msg));
            !v.invalid && Displays(v, msg) && !Clean(v)
  {
    var v := ClearErrorAsWritten(ShowErrorAsWritten(FieldView(false, Dangling, []), msg));
    assert Slots(v)[0] == Feedback(Some(msg), true);
  }

  // ---------------------------------------------------------------------
  // Corrected: both operations address the same element

  /**
   `showError` corrected: it writes the message into the element `clearError`
   hides, the `aria-describedby` element if it exists, otherwise the parent's
   first feedback element, created on first use.
   */
  function ShowError(v: FieldView, msg: ErrorKind): (r: FieldView)
    ensures r.invalid && Displays(r, msg)
    ensures r.described.DescribedBy? == v.described.DescribedBy?
    ensures Tidy(v) ==> Tidy(r)
  {
    match v.described
    case DescribedBy(_) =>
      var r := v.(invalid := true, described := DescribedBy(Feedback(Some(msg), true)));
      assert Slots(r)[0] == Feedback(Some(msg), true);
      r
    case _ =>
      var r :=
        if |v.parentFeedback| == 0 then v.(invalid := true, parentFeedback := [Feedback(Some(msg), true)])
        else v.(invalid := true, parentFeedback := v.parentFeedback[0 := Feedback(Some(msg), true)]);
      assert Slots(r)[0] == Feedback(Some(msg), true);
      assert forall k | 1 <= k < |Slots(r)| :: Slots(r)[k] == Slots(v)[k];
      r
  }

  /** `clearError` corrected: it hides the element `ShowError` writes to, falling back to the parent's first one. */
  function ClearError(v: FieldView): (r: FieldView)
    ensures !r.invalid
    ensures r.described.DescribedBy? == v.described.DescribedBy?
    ensures Tidy(v) ==> Clean(r)
    ensures Tidy(v) ==> Tidy(r)
  {
    match v.described
    case DescribedBy(_) => v.(invalid := false, described := DescribedBy(Hidden))
    case _ =>
      if |v.parentFeedback| == 0 then v.(invalid := false)
      else
        var r := v.(invalid := false, parentFeedback := v.parentFeedback[0 := Hidden]);
        assert forall k | 1 <= k < |Slots(r)| :: Slots(r)[k] == Slots(v)[k];
        r
  }

  /** Clearing a field that was just cleared changes nothing, and a clean field stays clean when cleared. */
  lemma ClearIdempotent(v: FieldView)
    ensures ClearError(ClearError(v)) == ClearError(v)
    ensures Clean(v) ==> Clean(ClearError(v))
  {
  }

  /** Clearing after showing restores a field to a state that looks as if no error had ever been shown. */
  lemma ClearAfterShowIsClean(v: FieldView, msg: ErrorKind)
    requires Tidy(v)
    ensures Clean(ClearError(ShowError(v, msg)))
  {
  }

  /** The corrected operations never leave a stale message: from a tidy field, any sequence of them keeps it tidy. */
  lemma {:induction false} TidyPreserved(v: FieldView, ops: seq<Option<ErrorKind>>)
    requires Tidy(v)
    ensures Tidy(ApplyAll(v, ops))
    decreases |ops|
  {
    if |ops| > 0 {
      var next := if ops[0].Some? then ShowError(v, ops[0].value) else ClearError(v);
      TidyPreserved(next, ops[1..]);
    }
  }

  /** Runs a sequence of operations: `Some(msg)` shows `msg`, `None` clears. */
  function ApplyAll(v: FieldView, ops: seq<Option<ErrorKind>>): FieldView
    decreases |ops|
  {
    if |ops| == 0 then v
    else
      var next := if ops[0].Some? then ShowError(v, ops[0].value) else ClearError(v);
      ApplyAll(next, ops[1..])
  }

}
