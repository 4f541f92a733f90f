/**
 * app/components/ContactSection.tsx: the client side of the contact form.
 * Its state is the four form fields, whether a submission is in flight, and
 * the status message shown after one. `handleSubmit` awaits twice, on
 * `fetch` and on `response.json()`; nothing in the state changes between
 * the two, so it is split in two: BeginSubmit runs before the request, and
 * FinishSubmit runs once both have settled, with their result given as a
 * FetchOutcome.
 */
module ContactSection {
  import opened Wrappers
  import ContactRoute

  const SuccessText := "Thank you! Your message has been sent successfully."
  const FallbackError := "Something went wrong. Please try again later."
  const NetworkError := "Network error. Please check your connection and try again."

  datatype FormData = FormData(name: string, email: string, subject: string, message: string)

  const EmptyForm := FormData("", "", "", "")

  /** The `name` attributes of the form's four inputs. */
  datatype FieldName = Name | Email | Subject | Message

  datatype SubmitStatus = SubmitStatus(success: bool, message: string)

  /** How `fetch(...)` and `response.json()` settled. */
  datatype FetchOutcome =
    | Responded(ok: bool, error: Option<string>)  // `response.ok` and `data.error` (None when undefined or null)
    | Threw                                       // fetch rejected, or the body was not JSON

  function Field(form: FormData, field: FieldName): string {
    match field
    case Name => form.name
    case Email => form.email
    case Subject => form.subject
    case Message => form.message
  }

  /** `{...prevState, [name]: value}` */
  function Updated(form: FormData, field: FieldName, value: string): (r: FormData)
    ensures Field(r, field) == value
    ensures forall other :: other != field ==> Field(r, other) == Field(form, other)
  {
    match field
    case Name => form.(name := value)
    case Email => form.(email := value)
    case Subject => form.(subject := value)
    case Message => form.(message := value)
  }

  /** Changing one field and then another leaves both, in either order. */
  lemma UpdatesCommute(form: FormData, f: FieldName, v: string, g: FieldName, w: string)
    requires f != g
    ensures Updated(Updated(form, f, v), g, w) == Updated(Updated(form, g, w), f, v)
  {
  }

  /** `data.error || 'Something went wrong...'` */
  function FailureMessage(error: Option<string>): (m: string)
    ensures m != ""
    ensures error.Some? && error.value != "" ==> m == error.value
    ensures error.None? || error.value == "" ==> m == FallbackError
  {
    if error.Some? && error.value != "" then error.value else FallbackError
  }

  /** The status shown once a submission has settled. */
  function StatusAfter(outcome: FetchOutcome): (s: SubmitStatus)
    ensures s.success <==> outcome.Responded? && outcome.ok
    ensures s.message != ""
    ensures outcome.Responded? && outcome.ok ==> s.message == SuccessText
    ensures outcome.Responded? && !outcome.ok ==> s.message == FailureMessage(outcome.error)
    ensures outcome.Threw? ==> s.message == NetworkError
  {
    match outcome
    case Threw => SubmitStatus(false, NetworkError)
    case Responded(ok, error) =>
      if ok then SubmitStatus(true, SuccessText) else SubmitStatus(false, FailureMessage(error))
  }

  /** The form fields once a submission has settled: cleared only on success. */
  function FormAfter(form: FormData, outcome: FetchOutcome): (r: FormData)
    ensures outcome.Responded? && outcome.ok ==> forall f :: Field(r, f) == ""
    ensures !(outcome.Responded? && outcome.ok) ==> r == form
  {
    if outcome.Responded? && outcome.ok then EmptyForm else form
  }

  /** The request body the server parses from `JSON.stringify(formData)`. */
  function RequestBodyOf(form: FormData): (r: ContactRoute.RequestBody)
    ensures r.Object? && r.others == map[]
    ensures r.name.GetOr("") == form.name && r.email.GetOr("") == form.email
    ensures r.subject.GetOr("") == form.subject && r.message.GetOr("") == form.message
    ensures ContactRoute.HasRequiredFields(r) <==> forall f :: Field(form, f) != ""
  {
    assert Field(form, Name) == form.name && Field(form, Email) == form.email;
    assert Field(form, Subject) == form.subject && Field(form, Message) == form.message;
    ContactRoute.Object(Some(form.name), Some(form.email), Some(form.subject), Some(form.message), map[])
  }

  /** How the client sees a response of the POST handler: ok for a 2xx status, and the `error` member of its body. */
  function Delivered(response: ContactRoute.Response): (r: FetchOutcome)
    ensures r.Responded?
    ensures r.ok <==> 200 <= response.status < 300
    ensures response.body.ErrorBody? ==> r.error == Some(response.body.error)
    ensures response.body.SuccessBody? ==> r.error == None
  {
    Responded(200 <= response.status < 300,
              match response.body
              case ErrorBody(e) => Some(e)
              case SuccessBody(_, _) => None)
  }

  /**
   * Submitting the form to the handler: the client reports success exactly
   * when the handler answered 201, and otherwise shows the handler's own
   * error text, so an empty field reads as the missing-field error.
   */
  lemma ClientShowsServerVerdict(form: FormData, store: ContactRoute.Store, id: string, timestamp: string, writeFails: bool)
    ensures var response := ContactRoute.Handle(RequestBodyOf(form), store, id, timestamp, writeFails).response;
      var status := StatusAfter(Delivered(response));
      && (status.success <==> response.status == 201)
      && (status.success ==> status.message == SuccessText)
      && (!status.success ==> status.message == response.body.error)
      && ((form.name == "" || form.email == "" || form.subject == "" || form.message == "") ==>
            status == SubmitStatus(false, ContactRoute.MissingFieldsError))
  {
  }

  /** The component's state. */
  class ContactForm {
    var formData: FormData
    var isSubmitting: bool
    var submitStatus: Option<SubmitStatus>

    constructor ()
      ensures formData == EmptyForm && !isSubmitting && submitStatus == None
    {
      formData := EmptyForm;
      isSubmitting := false;
      submitStatus := None;
    }

    /** `handleChange`: one input's new value replaces that field only. */
    method HandleChange(field: FieldName, value: string)
      modifies this
      ensures formData == Updated(old(formData), field, value)
      ensures isSubmitting == old(isSubmitting) && submitStatus == old(submitStatus)
    {
      match field {
        case Name => formData := formData.(name := value);
        case Email => formData := formData.(email := value);
        case Subject => formData := formData.(subject := value);
        case Message => formData := formData.(message := value);
      }
    }

    /** `handleSubmit` up to the request: mark the submission in flight, clear the status, and send the fields. */
    method BeginSubmit() returns (payload: FormData)
      modifies this
      ensures isSubmitting && submitStatus == None
      ensures formData == old(formData) && payload == formData
    {
      isSubmitting := true;
      submitStatus := None;
      payload := formData;
    }

    /** `handleSubmit` after the request: set the status from the outcome, clear the form on success, and end the submission. */
    method FinishSubmit(outcome: FetchOutcome)
      modifies this
      ensures !isSubmitting
      ensures submitStatus == Some(StatusAfter(outcome))
      ensures formData == FormAfter(old(formData), outcome)
    {
      match outcome {
        case Responded(ok, error) =>
          if ok {
            submitStatus := Some(SubmitStatus(true, SuccessText));
            formData := EmptyForm;
          } else {
            submitStatus := Some(SubmitStatus(false, if error.Some? && error.value != "" then error.value else FallbackError));
          }
        case Threw =>
          submitStatus := Some(SubmitStatus(false, NetworkError));
      }
      isSubmitting := false;
    }
  }
}
