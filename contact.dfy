/** The contact form: its four fields, the submission flag, the status banner and the
    row it sends to the `contacts` table. The table's answer is a parameter. */
module Contact {
  import opened Wrappers

  /** The form's controlled inputs. */
  datatype ContactForm = ContactForm(full_name: string, phone_number: string, email: string, message: string)

  const EmptyForm := ContactForm("", "", "", "")

  /** A row sent to `contacts`; an empty email is stored as null. */
  datatype ContactRow = ContactRow(full_name: string, phone_number: string, email: Option<string>, message: string)

  /** The banner state: `null`, `'success'` or `'error'`. */
  datatype Status = Idle | Success | Error

  /** The row built from the form: `email: formData.email || null`. */
  function RowOf(form: ContactForm): (row: ContactRow)
    ensures row.email == None <==> form.email == ""
    ensures row.email != None ==> row.email == Some(form.email)
    ensures row.full_name == form.full_name && row.phone_number == form.phone_number
    ensures row.message == form.message
  {
    ContactRow(form.full_name, form.phone_number, if form.email != "" then Some(form.email) else None, form.message)
  }

  /** The form a stored row was submitted from. */
  function FormOf(row: ContactRow): (form: ContactForm)
    ensures form.email == row.email.GetOr("")
  {
    ContactForm(row.full_name, row.phone_number, row.email.GetOr(""), row.message)
  }

  /** Nothing entered is lost on the way to the table: the form can be read back. */
  lemma RowOfRoundTrip(form: ContactForm)
    ensures FormOf(RowOf(form)) == form
  {
  }

  /** Two different forms never produce the same row. */
  lemma RowOfInjective(f: ContactForm, g: ContactForm)
    requires RowOf(f) == RowOf(g)
    ensures f == g
  {
    RowOfRoundTrip(f);
    RowOfRoundTrip(g);
  }

  class ContactPage {
    var isSubmitting: bool
    var status: Status
    var formData: ContactForm
    /** The insert requests sent to `contacts`, oldest first. */
    var inserts: seq<ContactRow>

    constructor ()
      ensures !isSubmitting && status == Idle && formData == EmptyForm && inserts == []
    {
      isSubmitting := false;
      status := Idle;
      formData := EmptyForm;
      inserts := [];
    }

    /** An input's `onChange`: the form takes the edited values. */
    method Edit(form: ContactForm)
      modifies this`formData
      ensures formData == form
    {
      formData := form;
    }

    /** `handleSubmit`: flag the submission, clear the banner, send one row, then
        report the outcome. `inserted` is the table's answer; the two ghost results
        record the flag and the banner while the request is in flight. */
    method HandleSubmit(inserted: bool) returns (ghost submittingDuringInsert: bool, ghost statusDuringInsert: Status)
      modifies this
      ensures inserts == old(inserts) + [RowOf(old(formData))]
      ensures submittingDuringInsert && statusDuringInsert == Idle
      ensures !isSubmitting
      ensures inserted ==> status == Success && formData == EmptyForm
      ensures !inserted ==> status == Error && formData == old(formData)
    {
      isSubmitting := true;
      status := Idle;
      submittingDuringInsert, statusDuringInsert := isSubmitting, status;
      inserts := inserts + [RowOf(formData)];
      if inserted {
        status := Success;
        formData := EmptyForm;
      } else {
        status := Error;
      }
      isSubmitting := false;
    }
  }
}
