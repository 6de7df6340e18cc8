/** The state the base UI components keep: a form's map of field errors, and a
    dialog's open flag with its cached control. The widgets themselves are left out; a
    built control is represented by its build number, and a validator by the result
    it returned. */
module Components {
  import opened Wrappers
  import opened Text

  /** The error map after `validate_field(field, ...)` with the validator's result:
      the field holds the error exactly when the result is truthy, and every other
      field keeps its entry. */
  function Validated(errors: map<string, string>, field: string, error: Option<string>)
    : (r: map<string, string>)
    ensures field in r <==> TruthyText(error)
    ensures TruthyText(error) ==> r[field] == error.value
    ensures forall f :: f != field ==> (f in r <==> f in errors)
    ensures forall f :: f != field && f in errors ==> r[f] == errors[f]
  {
    if TruthyText(error) then errors[field := error.value] else errors - {field}
  }

  /** Validating a field twice with the same result is validating it once. */
  lemma ValidatedIdempotent(errors: map<string, string>, field: string, error: Option<string>)
    ensures Validated(Validated(errors, field, error), field, error) == Validated(errors, field, error)
  {
    var once := Validated(errors, field, error);
    var twice := Validated(once, field, error);
    assert forall f :: f in twice <==> f in once;
  }

  /** A sequence of `validate_field` calls, in order, each with the field and the
      validator's result. */
  function ValidatedAll(errors: map<string, string>, results: seq<(string, Option<string>)>)
    : map<string, string>
  {
    if results == [] then errors
    else
      var last := results[|results| - 1];
      Validated(ValidatedAll(errors, results[..|results| - 1]), last.0, last.1)
  }

  /** After a sequence of validations a field validated holds an error exactly when
      its last validation failed, and that error is the last one. */
  lemma {:induction false} LastValidationWins(errors: map<string, string>,
                                              results: seq<(string, Option<string>)>, i: int)
    requires 0 <= i < |results|
    requires forall j :: i < j < |results| ==> results[j].0 != results[i].0
    ensures results[i].0 in ValidatedAll(errors, results) <==> TruthyText(results[i].1)
    ensures TruthyText(results[i].1) ==> ValidatedAll(errors, results)[results[i].0] == results[i].1.value
  {
    var init := results[..|results| - 1];
    if i < |results| - 1 {
      assert init[i] == results[i];
      LastValidationWins(errors, init, i);
    }
  }

  /** A field never validated keeps its entry. */
  lemma {:induction false} UnvalidatedFieldKept(errors: map<string, string>,
                                                results: seq<(string, Option<string>)>, f: string)
    requires forall i :: 0 <= i < |results| ==> results[i].0 != f
    ensures f in ValidatedAll(errors, results) <==> f in errors
    ensures f in errors ==> ValidatedAll(errors, results)[f] == errors[f]
  {
    if results != [] {
      var init := results[..|results| - 1];
      assert forall i :: 0 <= i < |init| ==> init[i] == results[i];
      UnvalidatedFieldKept(errors, init, f);
    }
  }

  class FormComponent {
    var errors: map<string, string>

    constructor ()
      ensures errors == map[]
    {
      errors := map[];
    }

    /** `validate_field`: true and the field's entry removed when the validator's
        result is falsy; false and the error recorded otherwise. */
    method ValidateField(field: string, error: Option<string>) returns (ok: bool)
      modifies this
      ensures ok <==> !TruthyText(error)
      ensures errors == Validated(old(errors), field, error)
    {
      if TruthyText(error) {
        errors := errors[field := error.value];
        return false;
      }
      errors := errors - {field};
      return true;
    }

    /** `has_errors`. */
    function HasErrors(): (r: bool)
      reads this
      ensures r <==> exists f :: f in errors
    {
      if |errors| > 0 then
        var f :| f in errors;
        true
      else
        assert errors == map[];
        false
    }

    /** `get_errors`: the current map, as a value the caller cannot change the form
        through. */
    method GetErrors() returns (copy: map<string, string>)
      ensures copy == errors
    {
      copy := errors;
    }

    /** `clear_errors`. */
    method ClearErrors()
      modifies this
      ensures errors == map[] && !HasErrors()
    {
      errors := map[];
    }
  }

  /** What `BaseDialogComponent` keeps: the open flag, the last dialog `build` made,
      the cached control of `get_control`, how many builds there were, the built
      dialog's own `open` attribute and the page's current dialog. */
  datatype DialogState = DialogState(isOpen: bool, dialog: Option<nat>, control: Option<nat>,
                                     builds: nat, dialogOpen: bool, pageDialog: Option<nat>)

  /** The cached control, when there is one, is the last dialog built; an open dialog
      has been built. */
  predicate Consistent(s: DialogState) {
    && (s.control.Some? ==> s.dialog == s.control)
    && (s.isOpen ==> s.dialog.Some?)
    && (s.dialog.Some? ==> s.dialog.value <= s.builds)
  }

  /** `get_control`: the cached control, or a new build that is cached. */
  function GotControl(s: DialogState): (r: (DialogState, nat))
    ensures r.0.control == Some(r.1)
    ensures s.control.Some? ==> r == (s, s.control.value)
    ensures s.control.None? ==> r.0.builds == s.builds + 1 && r.1 == r.0.builds && r.0.dialog == Some(r.1)
    ensures r.0.isOpen == s.isOpen && r.0.pageDialog == s.pageDialog
  {
    if s.control.Some? then (s, s.control.value)
    else
      var built := s.builds + 1;
      (s.(dialog := Some(built), control := Some(built), builds := built, dialogOpen := false), built)
  }

  /** `refresh`: forgets the cached control; the last dialog stays. */
  function Refreshed(s: DialogState): (r: DialogState)
    ensures r.control.None? && r.dialog == s.dialog && r.isOpen == s.isOpen && r.builds == s.builds
  {
    s.(control := None)
  }

  /** `open`: nothing when already open; otherwise the control is shown on the page,
      marked open, and the flag set. */
  function Opened(s: DialogState): (r: DialogState)
    ensures s.isOpen ==> r == s
    ensures r.isOpen
    ensures !s.isOpen ==> r.dialogOpen && r.control.Some? && r.pageDialog == r.control
  {
    if s.isOpen then s
    else
      var (built, c) := GotControl(s);
      built.(pageDialog := Some(c), dialogOpen := true, isOpen := true)
  }

  /** `close`: nothing unless open and built; otherwise the dialog and the flag are
      cleared. */
  function Closed(s: DialogState): (r: DialogState)
    ensures !(s.isOpen && s.dialog.Some?) ==> r == s
    ensures s.isOpen && s.dialog.Some? ==> !r.isOpen && !r.dialogOpen
    ensures r.dialog == s.dialog && r.control == s.control && r.builds == s.builds
  {
    if s.isOpen && s.dialog.Some? then s.(dialogOpen := false, isOpen := false) else s
  }

  /** Every operation keeps the state consistent. */
  lemma ConsistentPreserved(s: DialogState)
    requires Consistent(s)
    ensures Consistent(GotControl(s).0) && Consistent(Refreshed(s))
    ensures Consistent(Opened(s)) && Consistent(Closed(s))
  {
  }

  /** `get_control` builds at most once: a second call returns the same control and
      changes nothing, until `refresh` clears the cache and the next call builds anew. */
  lemma BuildsOnceUntilRefresh(s: DialogState)
    requires Consistent(s)
    ensures var (once, c) := GotControl(s);
            GotControl(once) == (once, c) &&
            once.builds <= s.builds + 1 &&
            GotControl(Refreshed(once)).0.builds == once.builds + 1 &&
            GotControl(Refreshed(once)).1 != c
  {
  }

  /** Opening twice is opening once; closing twice is closing once. */
  lemma OpenCloseIdempotent(s: DialogState)
    ensures Opened(Opened(s)) == Opened(s)
    ensures Closed(Closed(s)) == Closed(s)
  {
  }

  /** Closing a dialog just opened always takes effect, and opening it again reuses
      the same built control. */
  lemma OpenCloseOpen(s: DialogState)
    requires Consistent(s) && !s.isOpen
    ensures !Closed(Opened(s)).isOpen
    ensures Opened(Closed(Opened(s))).builds == Opened(s).builds
    ensures Opened(Closed(Opened(s))).pageDialog == Opened(s).control
  {
  }

  class DialogComponent {
    var isOpen: bool
    var dialog: Option<nat>
    var control: Option<nat>
    var builds: nat
    var dialogOpen: bool
    var pageDialog: Option<nat>

    function State(): DialogState
      reads this
    {
      DialogState(isOpen, dialog, control, builds, dialogOpen, pageDialog)
    }

    predicate Valid()
      reads this
    {
      Consistent(State())
    }

    constructor ()
      ensures Valid() && State() == DialogState(false, None, None, 0, false, None)
    {
      isOpen, dialog, control, builds, dialogOpen, pageDialog := false, None, None, 0, false, None;
    }

    /** `get_control`. */
    method GetControl() returns (c: nat)
      requires Valid()
      modifies this
      ensures Valid() && (State(), c) == GotControl(old(State()))
    {
      if control.None? {
        builds := builds + 1;
        dialog, control, dialogOpen := Some(builds), Some(builds), false;
      }
      c := control.value;
    }

    /** `refresh`; the page update is left out. */
    method Refresh()
      requires Valid()
      modifies this
      ensures Valid() && State() == Refreshed(old(State()))
    {
      control := None;
    }

    /** `open`. */
    method Open()
      requires Valid()
      modifies this
      ensures Valid() && State() == Opened(old(State()))
    {
      if !isOpen {
        var c := GetControl();
        pageDialog := Some(c);
        dialogOpen := true;
        isOpen := true;
      }
    }

    /** `close`. */
    method Close()
      requires Valid()
      modifies this
      ensures Valid() && State() == Closed(old(State()))
    {
      if isOpen && dialog.Some? {
        dialogOpen := false;
        isOpen := false;
      }
    }

    /** `is_open`. */
    function IsOpen(): (r: bool)
      reads this
      ensures r == State().isOpen
    {
      isOpen
    }
  }
}
