/**
 * The public contact form: one field changes per keystroke; submitting
 * inserts a row (an empty phone sent as null) and clears the form only
 * when the insert succeeds.
 */
module Contact {
  import opened Wrappers

  /** The four inputs, by their `name` attribute. */
  datatype Field = Name | Email | Phone | Message

  datatype ContactForm = ContactForm(name: string, email: string, phone: string, message: string)

  const EmptyForm := ContactForm([], [], [], [])

  /** The row inserted into `contact_submissions`. */
  datatype SubmissionRow = SubmissionRow(name: string, email: string, phone: Option<string>, message: string)

  datatype Notice = MessageSent | SendFailed

  function FieldValue(form: ContactForm, field: Field): string {
    match field
    case Name => form.name
    case Email => form.email
    case Phone => form.phone
    case Message => form.message
  }

  /** `{ ...prev, [name]: value }`: the named field takes the value, the others keep theirs. */
  function WithField(form: ContactForm, field: Field, value: string): (r: ContactForm)
    ensures FieldValue(r, field) == value
    ensures forall other :: other != field ==> FieldValue(r, other) == FieldValue(form, other)
  {
    match field
    case Name => form.(name := value)
    case Email => form.(email := value)
    case Phone => form.(phone := value)
    case Message => form.(message := value)
  }

  /** A form is determined by its four field values. */
  lemma FormByFields(f: ContactForm, g: ContactForm)
    requires forall field :: FieldValue(f, field) == FieldValue(g, field)
    ensures f == g
  {
    assert FieldValue(f, Name) == FieldValue(g, Name);
    assert FieldValue(f, Email) == FieldValue(g, Email);
    assert FieldValue(f, Phone) == FieldValue(g, Phone);
    assert FieldValue(f, Message) == FieldValue(g, Message);
  }

  /** Writing back a field's own value changes nothing. */
  lemma WithFieldOwnValue(f: ContactForm, field: Field)
    ensures WithField(f, field, FieldValue(f, field)) == f
  {
    FormByFields(WithField(f, field, FieldValue(f, field)), f);
  }

  /** The later of two writes to one field wins. */
  lemma WithFieldOverwrite(f: ContactForm, field: Field, a: string, b: string)
    ensures WithField(WithField(f, field, a), field, b) == WithField(f, field, b)
  {
    FormByFields(WithField(WithField(f, field, a), field, b), WithField(f, field, b));
  }

  /** Writes to two different fields commute. */
  lemma WithFieldCommute(f: ContactForm, x: Field, y: Field, a: string, b: string)
    requires x != y
    ensures WithField(WithField(f, x, a), y, b) == WithField(WithField(f, y, b), x, a)
  {
    FormByFields(WithField(WithField(f, x, a), y, b), WithField(WithField(f, y, b), x, a));
  }

  /** The insert payload: name, email and message as typed; `phone || null`. */
  function Payload(form: ContactForm): (row: SubmissionRow)
    ensures row.name == form.name && row.email == form.email && row.message == form.message
    ensures row.phone.None? <==> form.phone == []
    ensures row.phone.Some? ==> row.phone.value == form.phone
  {
    SubmissionRow(form.name, form.email, if form.phone == [] then None else Some(form.phone), form.message)
  }

  /** The form a row was built from, read back with a missing phone as "". */
  function FormOf(row: SubmissionRow): ContactForm {
    ContactForm(row.name, row.email, row.phone.GetOr([]), row.message)
  }

  /** The payload loses nothing: the form can be read back from it. */
  lemma PayloadRoundTrip(form: ContactForm)
    ensures FormOf(Payload(form)) == form
  {
  }

  /** The page's state: one field per `useState` of the source. */
  class ContactPage {
    var formData: ContactForm
    var isSubmitting: bool

    constructor ()
      ensures formData == EmptyForm && !isSubmitting
    {
      formData := EmptyForm;
      isSubmitting := false;
    }

    /** `handleChange`: the input named `field` now holds `value`. */
    method HandleChange(field: Field, value: string)
      modifies this`formData
      ensures formData == WithField(old(formData), field, value)
    {
      formData := WithField(formData, field, value);
    }

    /**
     * `handleSubmit`. `insertFails` says whether the insert of a row answers with an
     * error; `sent` is the row inserted. The form resets only on success.
     */
    method HandleSubmit(insertFails: SubmissionRow -> bool) returns (sent: SubmissionRow, notice: Notice)
      modifies this
      ensures sent == Payload(old(formData))
      ensures !isSubmitting
      ensures insertFails(sent) ==> notice == SendFailed && formData == old(formData)
      ensures !insertFails(sent) ==> notice == MessageSent && formData == EmptyForm
    {
      isSubmitting := true;
      sent := Payload(formData);
      if insertFails(sent) {
        notice := SendFailed;
      } else {
        notice := MessageSent;
        formData := EmptyForm;
      }
      isSubmitting := false;
    }
  }
}
