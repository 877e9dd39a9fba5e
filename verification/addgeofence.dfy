/** The add-geofence screen's form list (`AddGeofenceInteractor`): three text
    forms, the rule that enables the Submit button, and how an edited form
    replaces its predecessor. The interactor's only state is its optional
    form list, so each operation takes that list and returns the new one. */
module AddGeofenceForms {
  import opened Wrappers
  import opened Text
  import opened Sequences

  /** `FormType`, identified by its raw value. */
  datatype FormType = Radius | Note | WifiStrength

  function FormIdentifier(t: FormType): (id: string)
    ensures t == Radius ==> id == "radius"
    ensures t == Note ==> id == "note"
    ensures t == WifiStrength ==> id == "wifiStrength"
  {
    match t
    case Radius => "radius"
    case Note => "note"
    case WifiStrength => "wifiStrength"
  }

  /** The three form types have three different identifiers. */
  lemma FormIdentifiersDistinct(s: FormType, t: FormType)
    ensures FormIdentifier(s) == FormIdentifier(t) <==> s == t
  {
  }

  /** The keyboard a form asks for. */
  datatype Keyboard = NumberPad | AsciiCapable

  /** `FormTVCViewModel`: `text` is the optional `textContent`. */
  datatype Form = Form(identifier: string, title: string, isRequired: bool, keyboard: Keyboard, text: Option<string>)

  /** `createForms`: radius, wifi strength and note, in that order, all
      required and all still empty. */
  function CreateForms(): (forms: seq<Form>)
    ensures |forms| == 3
    ensures forms[0].identifier == FormIdentifier(Radius) && forms[0].title == "Radius" && forms[0].keyboard == NumberPad
    ensures forms[1].identifier == FormIdentifier(WifiStrength) && forms[1].title == "Wifi Strength" && forms[1].keyboard == NumberPad
    ensures forms[2].identifier == FormIdentifier(Note) && forms[2].title == "Note" && forms[2].keyboard == AsciiCapable
    ensures forall i :: 0 <= i < |forms| ==> forms[i].isRequired && forms[i].text.None?
  {
    [ Form(FormIdentifier(Radius), "Radius", true, NumberPad, None),
      Form(FormIdentifier(WifiStrength), "Wifi Strength", true, NumberPad, None),
      Form(FormIdentifier(Note), "Note", true, AsciiCapable, None) ]
  }

  /** A form has text when its content is present and is not blank once
      whitespace is trimmed off. */
  predicate HasText(f: Form)
  {
    f.text.Some? && |Trim(f.text.value)| > 0
  }

  /** Having text is having a non-whitespace character. */
  lemma HasTextIffNotBlank(f: Form)
    ensures HasText(f) <==> f.text.Some? && exists i :: 0 <= i < |f.text.value| && !IsWhitespace(f.text.value[i])
  {
  }

  /** The Submit button's rule: there is a form list, and every required
      form in it has text. */
  predicate Submittable(forms: Option<seq<Form>>)
  {
    forms.Some? && forall i :: 0 <= i < |forms.value| && forms.value[i].isRequired ==> HasText(forms.value[i])
  }

  /** The filter `checkEnableToSubmit` applies first. */
  function IsRequired(f: Form): bool
  {
    f.isRequired
  }

  /** `checkEnableToSubmit`: no list disables Submit; otherwise the required
      forms are scanned. */
  method CheckEnableToSubmit(forms: Option<seq<Form>>) returns (enabled: bool)
    ensures enabled <==> Submittable(forms)
    ensures forms.None? ==> !enabled
  {
    if forms.None? {
      return false;
    }
    var required := Filter(forms.value, IsRequired);
    enabled := AllHaveText(required);
    OptionalFormsIgnored(forms.value);
  }

  /** Every form in the list has text. */
  predicate AllTexted(forms: seq<Form>)
  {
    forall j :: 0 <= j < |forms| ==> HasText(forms[j])
  }

  /** The scan: stops at the first form without text. */
  method AllHaveText(forms: seq<Form>) returns (b: bool)
    ensures b <==> AllTexted(forms)
  {
    var i := 0;
    while i < |forms|
      invariant 0 <= i <= |forms|
      invariant forall j :: 0 <= j < i ==> HasText(forms[j])
    {
      if !HasText(forms[i]) {
        return false;
      }
      i := i + 1;
    }
    return true;
  }

  /** Forms that are not required never decide the outcome: Submit is
      enabled exactly when every form the filter keeps has text. */
  lemma OptionalFormsIgnored(forms: seq<Form>)
    ensures Submittable(Some(forms)) <==> AllTexted(Filter(forms, IsRequired))
  {
    var required := Filter(forms, IsRequired);
    if Submittable(Some(forms)) {
      forall k | 0 <= k < |required| ensures HasText(required[k]) {
        assert required[k] in required;
        var j :| 0 <= j < |forms| && forms[j] == required[k];
      }
    } else {
      var k :| 0 <= k < |forms| && forms[k].isRequired && !HasText(forms[k]);
      assert IsRequired(forms[k]);
      assert forms[k] in required;
      var j :| 0 <= j < |required| && required[j] == forms[k];
      assert !HasText(required[j]);
    }
  }

  /** Freshly created forms hold no text, so Submit stays disabled. */
  lemma CreatedFormsNotSubmittable()
    ensures !Submittable(Some(CreateForms()))
  {
  }

  /** `setupForms`: the existing list when there is one, otherwise a newly
      created list, which the interactor also keeps. Returns the kept list
      and the list handed to the view. */
  function SetupForms(forms: Option<seq<Form>>): (r: (Option<seq<Form>>, seq<Form>))
    ensures r.0 == Some(r.1)
    ensures forms.Some? ==> r.1 == forms.value
    ensures forms.None? ==> r.1 == CreateForms()
  {
    match forms
    case Some(fs) => (forms, fs)
    case None => (Some(CreateForms()), CreateForms())
  }

  /** Setting up twice shows and keeps the same forms as setting up once,
      including any text already typed. */
  lemma SetupFormsIdempotent(forms: Option<seq<Form>>)
    ensures SetupForms(SetupForms(forms).0) == SetupForms(forms)
  {
  }

  /** Index `i` holds the first form with identifier `id`. */
  predicate IsFirstWithIdentifier(forms: seq<Form>, id: string, i: int)
  {
    && 0 <= i < |forms|
    && forms[i].identifier == id
    && (forall j :: 0 <= j < i ==> forms[j].identifier != id)
  }

  /** `formsViewModel[index] = viewModel` for the first form with the same
      identifier; a list without one is left as it is. */
  function ReplaceForm(forms: seq<Form>, edited: Form): (r: seq<Form>)
    ensures |r| == |forms|
    ensures (forall i :: 0 <= i < |forms| ==> forms[i].identifier != edited.identifier) ==> r == forms
    ensures forall i :: IsFirstWithIdentifier(forms, edited.identifier, i) ==>
      && r[i] == edited
      && (forall j :: 0 <= j < |forms| && j != i ==> r[j] == forms[j])
  {
    var sameId := (f: Form) => f.identifier == edited.identifier;
    match FirstIndex(forms, sameId)
    case None => forms
    case Some(i) => forms[i := edited]
  }

  /** Replacing with the same edit again changes nothing more. */
  lemma ReplaceFormIdempotent(forms: seq<Form>, edited: Form)
    ensures ReplaceForm(ReplaceForm(forms, edited), edited) == ReplaceForm(forms, edited)
  {
    var sameId := (f: Form) => f.identifier == edited.identifier;
    var r := ReplaceForm(forms, edited);
    match FirstIndex(forms, sameId)
    case None =>
    case Some(i) =>
      assert IsFirstWithIdentifier(forms, edited.identifier, i);
      assert IsFirstWithIdentifier(r, edited.identifier, i);
      var rr := ReplaceForm(r, edited);
      assert forall j :: 0 <= j < |r| ==> rr[j] == r[j];
  }

  /** `textDidChange`: the edited form replaces its predecessor, then the
      Submit rule is re-evaluated on the result. Without a form list nothing
      is replaced and Submit is disabled. */
  method TextDidChange(forms: Option<seq<Form>>, edited: Form) returns (updated: Option<seq<Form>>, enabled: bool)
    ensures forms.None? ==> updated.None? && !enabled
    ensures forms.Some? ==> updated == Some(ReplaceForm(forms.value, edited))
    ensures enabled <==> Submittable(updated)
  {
    updated := if forms.Some? then Some(ReplaceForm(forms.value, edited)) else None;
    enabled := CheckEnableToSubmit(updated);
  }

  /** Typing non-blank text into the radius, wifi and note forms, one after
      the other, enables Submit. */
  lemma FillingEveryFormEnablesSubmit(radius: string, wifi: string, note: string)
    requires !IsBlank(radius) && !IsBlank(wifi) && !IsBlank(note)
    ensures var created := CreateForms();
      var f0 := ReplaceForm(created, created[0].(text := Some(radius)));
      var f1 := ReplaceForm(f0, created[1].(text := Some(wifi)));
      var f2 := ReplaceForm(f1, created[2].(text := Some(note)));
      Submittable(Some(f2))
  {
  }
}
