/**
 * App.tsx: the three feed loaders, the form state and its handlers, the
 * submission and the choice of what the checklist area shows. Each fetch
 * is replaced by the outcome it settled with.
 */
module App {
  import opened Wrappers
  import opened JsText
  import opened SimpleList
  import opened ChecklistConfig
  import ChecklistSection

  /** How the fetch of a feed settled: the body of an ok response, or a throw. */
  datatype FetchOutcome = Fetched(body: string) | FetchFailed

  /** How the webhook POST settled. `Threw(None)` is a thrown value that is not an `Error`. */
  datatype SubmitOutcome = Accepted | Rejected(status: nat, body: string) | Threw(message: Option<string>)

  /** A value of the submitted payload: a form field, or the checklist answers. */
  datatype PayloadValue = Text(text: string) | Answers(answers: map<string, string>)

  /** An option list with its `loading` and `error` states. */
  datatype ListState = ListState(options: seq<SelectOption>, loading: bool, error: Option<string>)

  /** What `renderChecklistSections` returns. */
  datatype SectionsArea = LoadingCard | ErrorCard(message: string) | Sections(views: seq<ChecklistSection.SectionView>) | NoSections

  const UnitsErrorMessage: string := "No se pudieron cargar las unidades."
  const DriversErrorMessage: string := "No se pudieron cargar los choferes."
  const ConfigErrorMessage: string := "No se pudo cargar la configuración del checklist."
  const SuccessAlert: string := "Checklist enviado con éxito!"
  const ChecklistKey: string := "checklist"

  /** The six fields of `formData`. */
  const FormFields: seq<string> := ["unit", "mileage", "driver", "dateTime", "workshopNotes", "email"]

  /** `formData` when the form is empty. */
  function EmptyForm(): (m: map<string, string>)
    ensures m.Keys == set f | f in FormFields
    ensures forall f :: f in m ==> m[f] == ""
  {
    map f | f in FormFields :: ""
  }

  /** An option list after `fetchSimpleList` has settled. */
  function SettledList(outcome: FetchOutcome, errorMsg: string): ListState
  {
    match outcome
    case Fetched(body) => ListState(ParseSimpleList(body), false, None)
    case FetchFailed => ListState([], false, Some(errorMsg))
  }

  /**
   * A settled list is no longer loading; a fetched one holds the sorted
   * options of the body's non-blank lines and no error, a failed one no
   * options and the message.
   */
  lemma SettledListMeaning(outcome: FetchOutcome, errorMsg: string)
    ensures var s := SettledList(outcome, errorMsg);
      && !s.loading
      && (outcome.Fetched? ==>
            s.error == None && SortedByLabel(s.options)
            && |s.options| == CountNonBlank(Lines(outcome.body)) && SelfLabelled(s.options))
      && (outcome.FetchFailed? ==> s.options == [] && s.error == Some(errorMsg))
  {
    if outcome.Fetched? {
      ParseSimpleListSize(outcome.body);
      ParseSimpleListSelfLabelled(outcome.body);
    }
  }

  /** `{ ...formData, checklist: checklistData }` */
  function Payload(form: map<string, string>, answers: map<string, string>): (p: map<string, PayloadValue>)
    ensures p.Keys == form.Keys + {ChecklistKey}
    ensures p[ChecklistKey] == Answers(answers)
    ensures forall k :: k in form && k != ChecklistKey ==> p[k] == Text(form[k])
  {
    map k | k in form.Keys + {ChecklistKey} :: if k == ChecklistKey then Answers(answers) else Text(form[k])
  }

  /** The form fields read back from a payload. */
  function FormPart(p: map<string, PayloadValue>): map<string, string>
  {
    map k | k in p && k != ChecklistKey && p[k].Text? :: p[k].text
  }

  /** The payload carries the form and the answers and nothing else. */
  lemma PayloadRoundTrip(form: map<string, string>, answers: map<string, string>)
    requires ChecklistKey !in form
    ensures FormPart(Payload(form, answers)) == form
    ensures Payload(form, answers)[ChecklistKey].answers == answers
  {
    var p := Payload(form, answers);
    assert FormPart(p).Keys == form.Keys;
  }

  /** `Error del servidor: ${response.status} - ${errorData}` */
  function ServerErrorMessage(status: nat, body: string): string
  {
    "Error del servidor: " + Decimal(status) + " - " + body
  }

  /** The alert a failed submission shows. */
  function FailureAlert(outcome: SubmitOutcome): (a: string)
    requires !outcome.Accepted?
  {
    "Error al enviar el checklist: " +
      match outcome
      case Rejected(status, body) => ServerErrorMessage(status, body)
      case Threw(Some(m)) => m
      case Threw(None) => "Error desconocido"
  }

  /** A rejection's alert names the status, which can be read back from it. */
  lemma RejectionAlertStatus(status: nat, body: string)
    ensures var a := FailureAlert(Rejected(status, body));
      var prefix := "Error al enviar el checklist: Error del servidor: ";
      var d := Decimal(status);
      && a == prefix + d + " - " + body
      && DecimalValue(d) == status
  {
    DecimalRoundTrip(status);
  }

  /** The per-section cards of a configuration, in key order. */
  function SectionViews(order: seq<string>, sections: map<string, Section>, answers: map<string, string>)
    : (r: seq<ChecklistSection.SectionView>)
    requires forall id :: id in order ==> id in sections
    ensures |r| == |order|
  {
    if order == [] then []
    else
      var s := sections[order[0]];
      [ChecklistSection.Render(s.title, s.items, answers, false)] + SectionViews(order[1..], sections, answers)
  }

  function TotalControls(views: seq<ChecklistSection.SectionView>): nat
  {
    if views == [] then 0 else |views[0].controls| + TotalControls(views[1..])
  }

  /** Each card holds one control per item of its section. */
  lemma {:induction false} ControlsMatchItems(order: seq<string>, sections: map<string, Section>, answers: map<string, string>)
    requires forall id :: id in order ==> id in sections
    ensures TotalControls(SectionViews(order, sections, answers)) == SumItems(order, sections)
  {
    if order != [] {
      var v := SectionViews(order, sections, answers);
      assert v[1..] == SectionViews(order[1..], sections, answers);
      ControlsMatchItems(order[1..], sections, answers);
    }
  }

  /** Each card is the section with that key, in key order. */
  lemma {:induction false} SectionViewAt(order: seq<string>, sections: map<string, Section>, answers: map<string, string>, k: nat)
    requires forall id :: id in order ==> id in sections
    requires k < |order|
    ensures var s := sections[order[k]];
      SectionViews(order, sections, answers)[k] == ChecklistSection.Render(s.title, s.items, answers, false)
  {
    if k > 0 {
      SectionViewAt(order[1..], sections, answers, k - 1);
    }
  }

  /** A fetched feed renders exactly one control per accepted row. */
  lemma OneControlPerAcceptedRow(text: string, answers: map<string, string>)
    ensures var cfg := ExpectedConfig(text);
      TotalControls(SectionViews(cfg.order, cfg.sections, answers)) == |AcceptedRows(Body(text))|
  {
    var cfg := ExpectedConfig(text);
    GroupedItemCount(AcceptedRows(Body(text)));
    ControlsMatchItems(cfg.order, cfg.sections, answers);
  }

  class ChecklistAppState {
    var units: ListState
    var drivers: ListState
    var checklistConfig: Option<Config>
    var configLoading: bool
    var configError: Option<string>
    var formData: map<string, string>
    var checklistData: map<string, string>
    var isSubmitting: bool

    /** A loaded configuration lists each of its sections once. */
    predicate Valid()
      reads this
    {
      checklistConfig.Some? ==> WellFormed(checklistConfig.value)
    }

    /** The state on first render. */
    constructor()
      ensures units == ListState([], true, None) && drivers == ListState([], true, None)
      ensures checklistConfig == None && configLoading && configError == None
      ensures formData == EmptyForm() && checklistData == map[] && !isSubmitting
      ensures Valid()
    {
      units := ListState([], true, None);
      drivers := ListState([], true, None);
      checklistConfig := None;
      configLoading := true;
      configError := None;
      formData := EmptyForm();
      checklistData := map[];
      isSubmitting := false;
    }

    /** `fetchSimpleList(UNIDADES_CSV_URL, ...)` from start to settling. */
    method LoadUnits(outcome: FetchOutcome)
      modifies this
      ensures units == SettledList(outcome, UnitsErrorMessage)
      ensures drivers == old(drivers) && checklistConfig == old(checklistConfig)
      ensures configLoading == old(configLoading) && configError == old(configError)
      ensures formData == old(formData) && checklistData == old(checklistData) && isSubmitting == old(isSubmitting)
    {
      units := units.(loading := true, error := None);
      units := SettledList(outcome, UnitsErrorMessage);
    }

    /** `fetchSimpleList(CHOFERES_CSV_URL, ...)`: drivers use the same one-column parser. */
    method LoadDrivers(outcome: FetchOutcome)
      modifies this
      ensures drivers == SettledList(outcome, DriversErrorMessage)
      ensures units == old(units) && checklistConfig == old(checklistConfig)
      ensures configLoading == old(configLoading) && configError == old(configError)
      ensures formData == old(formData) && checklistData == old(checklistData) && isSubmitting == old(isSubmitting)
    {
      drivers := drivers.(loading := true, error := None);
      drivers := SettledList(outcome, DriversErrorMessage);
    }

    /**
     * `fetchChecklistConfig`: a fetched feed replaces the configuration; a
     * failure sets the error and keeps the configuration there was. The
     * feed is grouped with own-key lookups (the corrected behaviour); for
     * a feed with no `Object.prototype` section id this is exactly what
     * the handler as written produces.
     */
    method LoadChecklistConfig(outcome: FetchOutcome)
      requires Valid()
      modifies this
      ensures outcome.Fetched? ==> checklistConfig == Some(ExpectedConfig(outcome.body)) && configError == None
      ensures outcome.Fetched? && !UsesInheritedName(AcceptedRows(Body(outcome.body))) ==>
        checklistConfig == ParseConfigAsWritten(outcome.body)
      ensures outcome.FetchFailed? ==> checklistConfig == old(checklistConfig) && configError == Some(ConfigErrorMessage)
      ensures !configLoading && Valid()
      ensures units == old(units) && drivers == old(drivers)
      ensures formData == old(formData) && checklistData == old(checklistData) && isSubmitting == old(isSubmitting)
    {
      configLoading := true;
      configError := None;
      match outcome {
        case Fetched(body) =>
          var cfg := ParseChecklistConfig(body);
          FoldAsWrittenOutcome(AcceptedRows(Body(body)));
          checklistConfig := Some(cfg);
        case FetchFailed =>
          configError := Some(ConfigErrorMessage);
      }
      configLoading := false;
    }

    /** `handleInputChange`: only the field `name` changes. */
    method HandleInputChange(name: string, value: string)
      modifies this
      ensures formData == old(formData)[name := value]
      ensures forall k :: k != name && k in old(formData) ==> k in formData && formData[k] == old(formData)[k]
      ensures units == old(units) && drivers == old(drivers) && checklistConfig == old(checklistConfig)
      ensures configLoading == old(configLoading) && configError == old(configError)
      ensures checklistData == old(checklistData) && isSubmitting == old(isSubmitting)
    {
      formData := formData[name := value];
    }

    /** `handleChecklistChange`: only the answer under `name` changes. */
    method HandleChecklistChange(name: string, value: string)
      modifies this
      ensures checklistData == old(checklistData)[name := value]
      ensures forall k :: k != name && k in old(checklistData) ==> k in checklistData && checklistData[k] == old(checklistData)[k]
      ensures units == old(units) && drivers == old(drivers) && checklistConfig == old(checklistConfig)
      ensures configLoading == old(configLoading) && configError == old(configError)
      ensures formData == old(formData) && isSubmitting == old(isSubmitting)
    {
      checklistData := checklistData[name := value];
    }

    /** `handleSubmit` up to the POST: submitting starts, and the payload is built. */
    method HandleSubmit() returns (payload: map<string, PayloadValue>)
      modifies this
      ensures isSubmitting && payload == Payload(formData, checklistData)
      ensures units == old(units) && drivers == old(drivers) && checklistConfig == old(checklistConfig)
      ensures configLoading == old(configLoading) && configError == old(configError)
      ensures formData == old(formData) && checklistData == old(checklistData)
    {
      isSubmitting := true;
      payload := Payload(formData, checklistData);
    }

    /**
     * `handleSubmit` once the POST has settled: an ok response empties the
     * form and the answers; anything else keeps them. Submitting ends
     * either way, and the alert text is returned.
     */
    method SubmitSettled(outcome: SubmitOutcome) returns (alertText: string)
      modifies this
      ensures !isSubmitting
      ensures outcome.Accepted? ==> formData == EmptyForm() && checklistData == map[] && alertText == SuccessAlert
      ensures !outcome.Accepted? ==>
        formData == old(formData) && checklistData == old(checklistData) && alertText == FailureAlert(outcome)
      ensures units == old(units) && drivers == old(drivers) && checklistConfig == old(checklistConfig)
      ensures configLoading == old(configLoading) && configError == old(configError)
    {
      if outcome.Accepted? {
        alertText := SuccessAlert;
        formData := EmptyForm();
        checklistData := map[];
      } else {
        alertText := FailureAlert(outcome);
      }
      isSubmitting := false;
    }

    /**
     * `renderChecklistSections`: loading wins over an error, an error over
     * the configuration, and without any of them nothing is shown.
     */
    function RenderChecklistSections(): (a: SectionsArea)
      requires Valid()
      reads this
      ensures configLoading <==> a == LoadingCard
      ensures a.ErrorCard? <==> !configLoading && Truthy(configError)
      ensures a.ErrorCard? ==> a.message == configError.value
      ensures a.Sections? <==> !configLoading && !Truthy(configError) && checklistConfig.Some?
      ensures a.Sections? ==> |a.views| == |checklistConfig.value.order|
    {
      if configLoading then LoadingCard
      else if Truthy(configError) then ErrorCard(configError.value)
      else if checklistConfig.Some? then
        var cfg := checklistConfig.value;
        assert forall id :: id in cfg.order ==> id in cfg.sections;
        Sections(SectionViews(cfg.order, cfg.sections, checklistData))
      else NoSections
    }
  }
}
