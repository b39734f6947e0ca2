/** The defaults `createForm` in form-builder/apps/api/main.go applies to a
    new form before storing it. */
module Forms {
  import Validation

  /** A form as posted by its author. The id and the timestamps are
      assigned by the database and the clock and are not modelled. */
  datatype Form = Form(
    ownerId: string,
    title: string,
    description: string,
    status: string,
    fields: seq<Validation.Field>)

  const UntitledTitle: string := "Untitled Form"
  const DraftStatus: string := "draft"

  /** A new form always gets a title and starts as a draft; the owner,
      description and fields are kept as posted. */
  function NewFormDefaults(f: Form): (r: Form)
    ensures r.title != "" && r.status == DraftStatus
    ensures f.title != "" ==> r.title == f.title
    ensures r.ownerId == f.ownerId && r.description == f.description && r.fields == f.fields
  {
    var titled := if f.title == "" then f.(title := UntitledTitle) else f;
    titled.(status := DraftStatus)
  }

  /** Applying the defaults twice changes nothing more; a form with an
      empty title gets "Untitled Form", whatever status was posted. */
  lemma NewFormDefaultsIdempotent(f: Form)
    ensures NewFormDefaults(NewFormDefaults(f)) == NewFormDefaults(f)
    ensures f.title == "" ==> NewFormDefaults(f).title == UntitledTitle
  {
  }
}
