/** The service form of frontend/src/components/ServiceTypes.tsx: the
    inputs that fall back to 0 when they do not parse, the ordered
    validation (name, then price, then duration), and a submit that on
    success appends the created service and resets the form. */
module ServiceTypes {
  import opened Text
  import opened Records

  datatype ServiceForm = ServiceForm(name: string, price: real, durationMinutes: int)

  /** `{ name: '', price: 0, durationMinutes: 0 }` */
  const InitialForm := ServiceForm("", 0.0, 0)

  datatype ValidationError = NameRequired | PriceNotPositive | DurationNotPositive

  function Message(e: ValidationError): string
  {
    match e
    case NameRequired => "Name is required"
    case PriceNotPositive => "Price must be greater than 0"
    case DurationNotPositive => "Duration must be greater than 0"
  }

  /** The three early returns of `handleSubmit`, in their order. */
  function Validate(f: ServiceForm): (r: Option<ValidationError>)
    ensures r == Some(NameRequired) <==> Blank(f.name)
    ensures r == Some(PriceNotPositive) <==> !Blank(f.name) && f.price <= 0.0
    ensures r == Some(DurationNotPositive) <==> !Blank(f.name) && f.price > 0.0 && f.durationMinutes <= 0
    ensures r == None <==> !Blank(f.name) && f.price > 0.0 && f.durationMinutes > 0
  {
    TrimEmptyIffBlank(f.name);
    if Trim(f.name) == [] then Some(NameRequired)
    else if f.price <= 0.0 then Some(PriceNotPositive)
    else if f.durationMinutes <= 0 then Some(DurationNotPositive)
    else None
  }

  /** `parseFloat(text) || 0`: `parsed` is None when the text is not a
      number (NaN). */
  function PriceFromInput(parsed: Option<real>): real
  {
    if parsed.Some? then parsed.value else 0.0
  }

  /** `parseInt(text) || 0`. */
  function DurationFromInput(parsed: Option<int>): int
  {
    if parsed.Some? then parsed.value else 0
  }

  /** Unparseable input turns into 0, which the validator then rejects:
      price first, duration once the price is valid. */
  lemma UnparseableInputRejected(f: ServiceForm)
    requires !Blank(f.name)
    ensures Validate(f.(price := PriceFromInput(None))) == Some(PriceNotPositive)
    ensures f.price > 0.0 ==>
              Validate(f.(durationMinutes := DurationFromInput(None))) == Some(DurationNotPositive)
  {
  }

  /** What the POST to /api/services came back with. */
  datatype PostResponse =
    | Created(service: Service)  // `response.ok`, with the created service
    | NotOk                      // any other status
    | Threw                      // `fetch` or `response.json()` rejected

  datatype SubmitOutcome =
    | Invalid(message: string)   // a validation toast; nothing posted
    | Added                      // "Service added successfully!"
    | Failed                     // "Failed to add service"
    | Errored                    // "An error occurred"

  class ServiceTypesPage {
    var services: seq<Service>
    var formData: ServiceForm

    /** The page with the services of the initial fetch. */
    constructor (fetched: seq<Service>)
      ensures services == fetched && formData == InitialForm
    {
      services := fetched;
      formData := InitialForm;
    }

    method SetName(text: string)
      modifies this`formData
      ensures formData == old(formData).(name := text)
    {
      formData := formData.(name := text);
    }

    method SetPriceInput(parsed: Option<real>)
      modifies this`formData
      ensures formData == old(formData).(price := PriceFromInput(parsed))
    {
      formData := formData.(price := PriceFromInput(parsed));
    }

    method SetDurationInput(parsed: Option<int>)
      modifies this`formData
      ensures formData == old(formData).(durationMinutes := DurationFromInput(parsed))
    {
      formData := formData.(durationMinutes := DurationFromInput(parsed));
    }

    /** `handleSubmit`; `response` is what the POST would return. The body
        posted, if any, is returned as `posted`. */
    method HandleSubmit(response: PostResponse) returns (posted: Option<ServiceForm>, outcome: SubmitOutcome)
      modifies this`services, this`formData
      ensures posted.Some? <==> Validate(old(formData)).None?
      ensures posted.Some? ==> posted.value == old(formData)
      ensures Validate(old(formData)).Some? ==> outcome == Invalid(Message(Validate(old(formData)).value))
      ensures posted.Some? && response.Created? ==>
                outcome == Added && services == old(services) + [response.service] && formData == InitialForm
      ensures posted.Some? && response.NotOk? ==> outcome == Failed
      ensures posted.Some? && response.Threw? ==> outcome == Errored
      ensures !(posted.Some? && response.Created?) ==>
                services == old(services) && formData == old(formData)
    {
      var error := Validate(formData);
      if error.Some? {
        return None, Invalid(Message(error.value));
      }
      posted := Some(formData);
      match response
      case Created(newService) =>
        services := services + [newService];
        formData := InitialForm;
        outcome := Added;
      case NotOk =>
        outcome := Failed;
      case Threw =>
        outcome := Errored;
    }
  }
}
