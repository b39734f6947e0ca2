/** Server-side validation of a submitted response, `validateAnswers` in
    form-builder/apps/api/main.go: a required-field pass over the form's
    fields in order, then a type check of every answer in order; the first
    failure is reported. */
module Validation {
  import opened Wrappers
  import opened Values

  /** One question of a form. `fieldType` is kept as the raw name, since a
      stored form may carry a type the server does not know. `min` and `max`
      are the optional rating bounds. */
  datatype Field = Field(
    id: string,
    fieldType: string,
    fieldLabel: string,
    required: bool,
    options: seq<string>,
    min: Option<int>,
    max: Option<int>)

  datatype Answer = Answer(fieldId: string, value: Value)

  /** The errors `validateAnswers` returns. Text and choice fields share
      the "expects string" error. */
  datatype ValidationError =
    | MissingRequired(fieldId: string)
    | UnknownField(fieldId: string)
    | ExpectsString(fieldId: string)
    | InvalidOption(fieldId: string)
    | ExpectsArray(fieldId: string)
    | InvalidCheckboxValue(fieldId: string)
    | ExpectsNumber(fieldId: string)
    | OutOfRange(fieldId: string)
    | UnsupportedType(fieldType: string)

  /** The fixed text in front of the subject of a message. */
  function Lead(e: ValidationError): string {
    match e
    case MissingRequired(_) => "missing required field: "
    case UnknownField(_) => "unknown field: "
    case UnsupportedType(_) => "unsupported field type "
    case _ => "field "
  }

  /** What a message is about: the field's id, or the unsupported type. */
  function Subject(e: ValidationError): string {
    if e.UnsupportedType? then e.fieldType else e.fieldId
  }

  /** The fixed text after the subject of a message. */
  function Tail(e: ValidationError): string {
    match e
    case ExpectsString(_) => " expects string"
    case InvalidOption(_) => " invalid option"
    case ExpectsArray(_) => " expects array"
    case InvalidCheckboxValue(_) => " invalid checkbox value"
    case ExpectsNumber(_) => " expects number"
    case OutOfRange(_) => " out of range"
    case _ => ""
  }

  /** The text of the error, as sent back in the HTTP 400 response. */
  function Message(e: ValidationError): string {
    Lead(e) + Subject(e) + Tail(e)
  }

  /** The first and third characters of a lead tell the four leads apart. */
  lemma LeadsDiffer(e1: ValidationError, e2: ValidationError)
    requires Lead(e1)[0] == Lead(e2)[0] && Lead(e1)[2] == Lead(e2)[2]
    ensures Lead(e1) == Lead(e2)
  {
  }

  /** Only the "field ..." messages have a tail, and each has at least two
      characters. */
  lemma TailShape(e: ValidationError)
    ensures |Lead(e)| >= 3
    ensures Lead(e) == "field " ==> |Tail(e)| >= 2
    ensures Lead(e) != "field " ==> Tail(e) == ""
  {
  }

  /** The last two characters of a tail tell the six non-empty tails apart. */
  lemma TailsDiffer(e1: ValidationError, e2: ValidationError)
    requires |Tail(e1)| >= 2 && |Tail(e2)| >= 2
    requires Tail(e1)[|Tail(e1)| - 1] == Tail(e2)[|Tail(e2)| - 1]
    requires Tail(e1)[|Tail(e1)| - 2] == Tail(e2)[|Tail(e2)| - 2]
    ensures Tail(e1) == Tail(e2)
  {
  }

  /** Messages with the same lead that end alike have the same tail. */
  lemma SameTail(e1: ValidationError, e2: ValidationError, x1: string, x2: string)
    requires Lead(e1) == Lead(e2)
    requires x1 + Tail(e1) == x2 + Tail(e2)
    ensures Tail(e1) == Tail(e2)
  {
    TailShape(e1);
    TailShape(e2);
    if Lead(e1) == "field " {
      var m, t1, t2 := x1 + Tail(e1), Tail(e1), Tail(e2);
      var n := |m|;
      assert m[n - 1] == t1[|t1| - 1] && m[n - 1] == t2[|t2| - 1];
      assert m[n - 2] == t1[|t1| - 2] && m[n - 2] == t2[|t2| - 2];
      TailsDiffer(e1, e2);
    }
  }

  /** Two errors with the same lead, subject and tail are the same error. */
  lemma PartsDetermineError(e1: ValidationError, e2: ValidationError)
    requires Lead(e1) == Lead(e2) && Tail(e1) == Tail(e2)
    requires Subject(e1) == Subject(e2)
    ensures e1 == e2
  {
  }

  /** Two strings that start with the same text are equal once it is removed. */
  lemma DropCommonPrefix(t: string, x: string, y: string)
    requires t + x == t + y
    ensures x == y
  {
    assert x == (t + x)[|t|..];
    assert y == (t + y)[|t|..];
  }

  /** Two strings that end in the same text are equal once it is removed. */
  lemma DropCommonSuffix(x: string, y: string, t: string)
    requires x + t == y + t
    ensures x == y
  {
    assert x == (x + t)[..|x|];
    assert y == (y + t)[..|y|];
  }

  /** The text of an error identifies the error: no two different errors
      give the same message, so a client can tell them apart. */
  lemma MessageInjective(e1: ValidationError, e2: ValidationError)
    requires Message(e1) == Message(e2)
    ensures e1 == e2
  {
    var m := Message(e1);
    var l1, l2 := Lead(e1), Lead(e2);
    var t1, t2 := Tail(e1), Tail(e2);
    var x1, x2 := l1 + Subject(e1), l2 + Subject(e2);
    assert m == x1 + t1 && m == x2 + t2;
    TailShape(e1);
    TailShape(e2);
    assert m[0] == l1[0] == l2[0] && m[2] == l1[2] == l2[2];
    LeadsDiffer(e1, e2);
    SameTail(e1, e2, x1, x2);
    DropCommonSuffix(x1, x2, t1);
    DropCommonPrefix(l1, Subject(e1), Subject(e2));
    PartsDetermineError(e1, e2);
  }

  const DefaultMin: int := 1
  const DefaultMax: int := 5

  function RatingMin(f: Field): int {
    if f.min.Some? then f.min.value else DefaultMin
  }

  function RatingMax(f: Field): int {
    if f.max.Some? then f.max.value else DefaultMax
  }

  predicate IsKnownType(t: string) {
    t == "text" || t == "textarea" || t == "mcq" || t == "checkbox" || t == "rating"
  }

  // ---------------------------------------------------------------------
  // Field lookup: later definitions of an id replace earlier ones
  // ---------------------------------------------------------------------

  function FieldMap(fields: seq<Field>): map<string, Field> {
    if fields == [] then map[]
    else
      var last := fields[|fields| - 1];
      FieldMap(fields[..|fields| - 1])[last.id := last]
  }

  /** Some field of the form has this id. */
  predicate HasField(fields: seq<Field>, id: string) {
    exists i :: 0 <= i < |fields| && fields[i].id == id
  }

  /** The lookup knows exactly the ids of the form's fields. */
  lemma {:induction false} FieldMapDomain(fields: seq<Field>, id: string)
    ensures id in FieldMap(fields) <==> HasField(fields, id)
  {
    if fields != [] {
      var init := fields[..|fields| - 1];
      FieldMapDomain(init, id);
      if id in FieldMap(init) {
        var i :| 0 <= i < |init| && init[i].id == id;
        assert fields[i].id == id;
      }
      if HasField(fields, id) {
        var i :| 0 <= i < |fields| && fields[i].id == id;
        if i < |init| {
          assert init[i].id == id;
        }
      }
    }
  }

  /** When several fields share an id, the last of them is the one used. */
  lemma {:induction false} FieldMapLastWins(fields: seq<Field>, i: nat)
    requires i < |fields|
    requires forall j :: i < j < |fields| ==> fields[j].id != fields[i].id
    ensures fields[i].id in FieldMap(fields) && FieldMap(fields)[fields[i].id] == fields[i]
  {
    if i < |fields| - 1 {
      var init := fields[..|fields| - 1];
      FieldMapLastWins(init, i);
    }
  }

  // ---------------------------------------------------------------------
  // Required-field pass
  // ---------------------------------------------------------------------

  /** Some answer targets the field with this id; its value does not matter. */
  predicate Answered(answers: seq<Answer>, id: string) {
    exists k :: 0 <= k < |answers| && answers[k].fieldId == id
  }

  /** Every required field has an answer. */
  predicate RequiredAnswered(fields: seq<Field>, answers: seq<Answer>) {
    forall i :: 0 <= i < |fields| && fields[i].required ==> Answered(answers, fields[i].id)
  }

  /** Field `i` is required and unanswered, and every required field before
      it is answered. */
  predicate IsFirstMissing(fields: seq<Field>, answers: seq<Answer>, i: nat)
    requires i < |fields|
  {
    && fields[i].required
    && !Answered(answers, fields[i].id)
    && forall j :: 0 <= j < i && fields[j].required ==> Answered(answers, fields[j].id)
  }

  /** The id of the first required field, in field order, that no answer
      targets. */
  function FirstMissing(fields: seq<Field>, answers: seq<Answer>): Option<string> {
    if fields == [] then None
    else if fields[0].required && !Answered(answers, fields[0].id) then Some(fields[0].id)
    else FirstMissing(fields[1..], answers)
  }

  lemma {:induction false} FirstMissingFound(fields: seq<Field>, answers: seq<Answer>, i: nat)
    requires i < |fields| && IsFirstMissing(fields, answers, i)
    ensures FirstMissing(fields, answers) == Some(fields[i].id)
  {
    if i > 0 {
      assert fields[0].required ==> Answered(answers, fields[0].id);
      var rest := fields[1..];
      assert rest[i - 1] == fields[i];
      forall j | 0 <= j < i - 1 && rest[j].required
        ensures Answered(answers, rest[j].id)
      {
        assert rest[j] == fields[j + 1];
      }
      FirstMissingFound(rest, answers, i - 1);
    }
  }

  lemma {:induction false} FirstMissingNone(fields: seq<Field>, answers: seq<Answer>)
    ensures FirstMissing(fields, answers).None? <==> RequiredAnswered(fields, answers)
  {
    if fields != [] {
      var rest := fields[1..];
      FirstMissingNone(rest, answers);
      if forall i :: 0 <= i < |rest| && rest[i].required ==> Answered(answers, rest[i].id) {
        forall i | 1 <= i < |fields| && fields[i].required
          ensures Answered(answers, fields[i].id)
        {
          assert fields[i] == rest[i - 1];
        }
      }
      if forall i :: 0 <= i < |fields| && fields[i].required ==> Answered(answers, fields[i].id) {
        forall i | 0 <= i < |rest| && rest[i].required
          ensures Answered(answers, rest[i].id)
        {
          assert rest[i] == fields[i + 1];
        }
      }
    }
  }

  lemma {:induction false} FirstMissingSome(fields: seq<Field>, answers: seq<Answer>)
    ensures FirstMissing(fields, answers).Some? ==>
            exists i :: 0 <= i < |fields| && IsFirstMissing(fields, answers, i) &&
                        fields[i].id == FirstMissing(fields, answers).value
  {
    if fields != [] && FirstMissing(fields, answers).Some? {
      if fields[0].required && !Answered(answers, fields[0].id) {
        assert IsFirstMissing(fields, answers, 0);
      } else {
        var rest := fields[1..];
        FirstMissingSome(rest, answers);
        var i :| 0 <= i < |rest| && IsFirstMissing(rest, answers, i) &&
                 rest[i].id == FirstMissing(rest, answers).value;
        forall j | 0 <= j < i + 1 && fields[j].required
          ensures Answered(answers, fields[j].id)
        {
          if j > 0 {
            assert fields[j] == rest[j - 1];
          }
        }
        assert IsFirstMissing(fields, answers, i + 1);
      }
    }
  }

  // ---------------------------------------------------------------------
  // Per-answer type check
  // ---------------------------------------------------------------------

  /** The values each kind of field admits, stated by the shape of the value. */
  predicate Admits(f: Field, v: Value) {
    match v
    case Str(s) =>
      || f.fieldType == "text" || f.fieldType == "textarea"
      || (f.fieldType == "mcq" && (f.options == [] || s in f.options))
    case Arr(items) =>
      f.fieldType == "checkbox" &&
      forall i :: 0 <= i < |items| ==> items[i].Str? && items[i].s in f.options
    case Int(n) =>
      f.fieldType == "rating" && RatingMin(f) <= n <= RatingMax(f)
    case Other(_) => false
  }

  /** The type switch applied to one answer whose field was found. */
  function CheckValue(f: Field, v: Value): (r: Outcome<ValidationError>)
    ensures r.Pass? <==> Admits(f, v)
    ensures r.Fail? && !r.error.UnsupportedType? ==> r.error.fieldId == f.id
    ensures r.Fail? && r.error.UnsupportedType? <==> !IsKnownType(f.fieldType)
    ensures r.Fail? ==> !r.error.MissingRequired? && !r.error.UnknownField?
  {
    if f.fieldType == "text" || f.fieldType == "textarea" then
      if v.Str? then Pass else Fail(ExpectsString(f.id))
    else if f.fieldType == "mcq" then
      if !v.Str? then Fail(ExpectsString(f.id))
      else if |f.options| > 0 && v.s !in f.options then Fail(InvalidOption(f.id))
      else Pass
    else if f.fieldType == "checkbox" then
      if !v.Arr? then Fail(ExpectsArray(f.id))
      else if forall i :: 0 <= i < |v.items| ==> v.items[i].Str? && v.items[i].s in f.options then Pass
      else Fail(InvalidCheckboxValue(f.id))
    else if f.fieldType == "rating" then
      if !v.Int? then Fail(ExpectsNumber(f.id))
      else if v.n < RatingMin(f) || v.n > RatingMax(f) then Fail(OutOfRange(f.id))
      else Pass
    else
      Fail(UnsupportedType(f.fieldType))
  }

  /** One answer: its field must exist, and its value must pass the check. */
  function AnswerCheck(lookup: map<string, Field>, a: Answer): Outcome<ValidationError> {
    if a.fieldId !in lookup then Fail(UnknownField(a.fieldId))
    else CheckValue(lookup[a.fieldId], a.value)
  }

  /** The first failing answer's error, in answer order. */
  function CheckAnswers(lookup: map<string, Field>, answers: seq<Answer>): Outcome<ValidationError> {
    if answers == [] then Pass
    else if AnswerCheck(lookup, answers[0]).Fail? then AnswerCheck(lookup, answers[0])
    else CheckAnswers(lookup, answers[1..])
  }

  /** `validateAnswers`: the required pass first, then the type checks. */
  function Validate(fields: seq<Field>, answers: seq<Answer>): Outcome<ValidationError> {
    match FirstMissing(fields, answers)
    case Some(id) => Fail(MissingRequired(id))
    case None => CheckAnswers(FieldMap(fields), answers)
  }

  lemma {:induction false} CheckAnswersPass(lookup: map<string, Field>, answers: seq<Answer>)
    ensures CheckAnswers(lookup, answers) == Pass <==>
            forall k :: 0 <= k < |answers| ==> AnswerCheck(lookup, answers[k]) == Pass
  {
    if answers != [] {
      var rest := answers[1..];
      CheckAnswersPass(lookup, rest);
      if forall k :: 0 <= k < |answers| ==> AnswerCheck(lookup, answers[k]) == Pass {
        forall k | 0 <= k < |rest| ensures AnswerCheck(lookup, rest[k]) == Pass {
          assert rest[k] == answers[k + 1];
        }
      }
      if CheckAnswers(lookup, answers) == Pass {
        forall k | 0 <= k < |answers| ensures AnswerCheck(lookup, answers[k]) == Pass {
          if k > 0 {
            assert answers[k] == rest[k - 1];
          }
        }
      }
    }
  }

  /** The reported error is that of the first answer that fails. */
  lemma {:induction false} CheckAnswersFirstFailure(lookup: map<string, Field>, answers: seq<Answer>, k: nat)
    requires k < |answers|
    requires forall j :: 0 <= j < k ==> AnswerCheck(lookup, answers[j]) == Pass
    requires AnswerCheck(lookup, answers[k]).Fail?
    ensures CheckAnswers(lookup, answers) == AnswerCheck(lookup, answers[k])
  {
    if k > 0 {
      var rest := answers[1..];
      assert AnswerCheck(lookup, answers[0]) == Pass;
      forall j | 0 <= j < k - 1 ensures AnswerCheck(lookup, rest[j]) == Pass {
        assert rest[j] == answers[j + 1];
      }
      assert rest[k - 1] == answers[k];
      CheckAnswersFirstFailure(lookup, rest, k - 1);
    }
  }

  /** A failure of the type checks is the failure of some answer. */
  lemma {:induction false} CheckAnswersFailWitness(lookup: map<string, Field>, answers: seq<Answer>)
    ensures CheckAnswers(lookup, answers).Fail? ==>
            exists k :: 0 <= k < |answers| && AnswerCheck(lookup, answers[k]) == CheckAnswers(lookup, answers)
  {
    if answers != [] && AnswerCheck(lookup, answers[0]).Pass? {
      var rest := answers[1..];
      CheckAnswersFailWitness(lookup, rest);
      if CheckAnswers(lookup, rest).Fail? {
        var k :| 0 <= k < |rest| && AnswerCheck(lookup, rest[k]) == CheckAnswers(lookup, rest);
        assert answers[k + 1] == rest[k];
      }
    }
  }

  // ---------------------------------------------------------------------
  // What `validateAnswers` accepts and reports
  // ---------------------------------------------------------------------

  /** A response is accepted exactly when every required field has an
      answer, and every answer names a field of the form and has a value
      that field admits (the last field with that id deciding). */
  lemma ValidateAccepts(fields: seq<Field>, answers: seq<Answer>)
    ensures Validate(fields, answers) == Pass <==>
            && RequiredAnswered(fields, answers)
            && (forall k :: 0 <= k < |answers| ==>
                  answers[k].fieldId in FieldMap(fields) &&
                  Admits(FieldMap(fields)[answers[k].fieldId], answers[k].value))
  {
    FirstMissingNone(fields, answers);
    CheckAnswersPass(FieldMap(fields), answers);
  }

  /** The first required field without an answer is reported before any
      type check, whatever the other answers hold; and a missing-field
      error always names such a field. */
  lemma MissingRequiredReportedFirst(fields: seq<Field>, answers: seq<Answer>, id: string)
    ensures Validate(fields, answers) == Fail(MissingRequired(id)) <==>
            exists i :: 0 <= i < |fields| && IsFirstMissing(fields, answers, i) && fields[i].id == id
  {
    FirstMissingSome(fields, answers);
    if exists i :: 0 <= i < |fields| && IsFirstMissing(fields, answers, i) && fields[i].id == id {
      var i :| 0 <= i < |fields| && IsFirstMissing(fields, answers, i) && fields[i].id == id;
      FirstMissingFound(fields, answers, i);
    }
    if FirstMissing(fields, answers).None? {
      CheckAnswersFailWitness(FieldMap(fields), answers);
    }
  }

  /** Presence alone satisfies a required field: an answer with any value,
      the empty string and the empty array included, means that field is
      never reported missing. */
  lemma PresenceSatisfiesRequired(fields: seq<Field>, answers: seq<Answer>, id: string)
    requires Answered(answers, id)
    ensures Validate(fields, answers) != Fail(MissingRequired(id))
  {
    MissingRequiredReportedFirst(fields, answers, id);
  }

  /** Once every required field is answered, an answer naming no field of
      the form fails with "unknown field" unless an earlier answer failed. */
  lemma UnknownFieldRejected(fields: seq<Field>, answers: seq<Answer>, k: nat)
    requires RequiredAnswered(fields, answers)
    requires k < |answers|
    requires !HasField(fields, answers[k].fieldId)
    requires forall j :: 0 <= j < k ==> AnswerCheck(FieldMap(fields), answers[j]) == Pass
    ensures Validate(fields, answers) == Fail(UnknownField(answers[k].fieldId))
  {
    FirstMissingNone(fields, answers);
    assert FirstMissing(fields, answers) == None;
    FieldMapDomain(fields, answers[k].fieldId);
    CheckAnswersFirstFailure(FieldMap(fields), answers, k);
    assert CheckAnswers(FieldMap(fields), answers) == Fail(UnknownField(answers[k].fieldId));
  }

  /** An unsupported field type is reported only when an answer targets a
      field of that type. */
  lemma UnsupportedTypeNeedsAnswer(fields: seq<Field>, answers: seq<Answer>, t: string)
    ensures Validate(fields, answers) == Fail(UnsupportedType(t)) ==>
            && !IsKnownType(t)
            && exists k :: 0 <= k < |answers| && answers[k].fieldId in FieldMap(fields) &&
                           FieldMap(fields)[answers[k].fieldId].fieldType == t
  {
    if FirstMissing(fields, answers).None? {
      CheckAnswersFailWitness(FieldMap(fields), answers);
    }
  }

  /** A checkbox answer with no selections is always admitted; with no
      options, any selection is refused. */
  lemma CheckboxSelections(f: Field, items: seq<Value>)
    requires f.fieldType == "checkbox"
    ensures CheckValue(f, Arr([])) == Pass
    ensures f.options == [] && items != [] ==> CheckValue(f, Arr(items)) == Fail(InvalidCheckboxValue(f.id))
  {
    if f.options == [] && items != [] {
      assert !(items[0].Str? && items[0].s in f.options);
    }
  }

  /** A choice field without options admits any string. */
  lemma McqWithoutOptions(f: Field, s: string)
    requires f.fieldType == "mcq" && f.options == []
    ensures CheckValue(f, Str(s)) == Pass
  {
  }

  /** Without explicit bounds a rating must lie in 1..5, both inclusive. */
  lemma RatingDefaultBounds(f: Field, n: int)
    requires f.fieldType == "rating" && f.min.None? && f.max.None?
    ensures CheckValue(f, Int(n)) == Pass <==> 1 <= n <= 5
  {
  }

  // ---------------------------------------------------------------------
  // The loops of `validateAnswers`
  // ---------------------------------------------------------------------

  /** The type switch for one answer, with the option scans written as the
      source's loops. */
  method TypeCheck(f: Field, v: Value) returns (r: Outcome<ValidationError>)
    ensures r == CheckValue(f, v)
  {
    if f.fieldType == "text" || f.fieldType == "textarea" {
      if !v.Str? {
        return Fail(ExpectsString(f.id));
      }
    } else if f.fieldType == "mcq" {
      if !v.Str? {
        return Fail(ExpectsString(f.id));
      }
      var s := v.s;
      if |f.options| > 0 {
        var valid := false;
        var i := 0;
        while i < |f.options|
          invariant 0 <= i <= |f.options|
          invariant !valid
          invariant forall j :: 0 <= j < i ==> f.options[j] != s
        {
          if f.options[i] == s {
            valid := true;
            break;
          }
          i := i + 1;
        }
        if !valid {
          return Fail(InvalidOption(f.id));
        }
      }
    } else if f.fieldType == "checkbox" {
      if !v.Arr? {
        return Fail(ExpectsArray(f.id));
      }
      var optSet: set<string> := {};
      for i := 0 to |f.options|
        invariant forall o :: o in optSet <==> o in f.options[..i]
      {
        optSet := optSet + {f.options[i]};
      }
      assert f.options[..|f.options|] == f.options;
      for i := 0 to |v.items|
        invariant forall j :: 0 <= j < i ==> v.items[j].Str? && v.items[j].s in f.options
      {
        var it := v.items[i];
        if !it.Str? || it.s !in optSet {
          return Fail(InvalidCheckboxValue(f.id));
        }
      }
    } else if f.fieldType == "rating" {
      if !v.Int? {
        return Fail(ExpectsNumber(f.id));
      }
      var min := DefaultMin;
      var max := DefaultMax;
      if f.min.Some? {
        min := f.min.value;
      }
      if f.max.Some? {
        max := f.max.value;
      }
      if v.n < min || v.n > max {
        return Fail(OutOfRange(f.id));
      }
    } else {
      return Fail(UnsupportedType(f.fieldType));
    }
    return Pass;
  }

  /** `validateAnswers`: build the id lookup, run the required pass, then
      type-check every answer, returning at the first failure. */
  method ValidateAnswers(fields: seq<Field>, answers: seq<Answer>) returns (r: Outcome<ValidationError>)
    ensures r == Validate(fields, answers)
  {
    var fieldMap: map<string, Field> := map[];
    for i := 0 to |fields|
      invariant fieldMap == FieldMap(fields[..i])
    {
      assert fields[..i + 1][..i] == fields[..i];
      fieldMap := fieldMap[fields[i].id := fields[i]];
    }
    assert fields[..|fields|] == fields;

    for i := 0 to |fields|
      invariant FirstMissing(fields, answers) == FirstMissing(fields[i..], answers)
    {
      assert fields[i..][1..] == fields[i + 1..];
      if fields[i].required {
        var found := false;
        var j := 0;
        while j < |answers|
          invariant 0 <= j <= |answers|
          invariant !found
          invariant forall k :: 0 <= k < j ==> answers[k].fieldId != fields[i].id
        {
          if answers[j].fieldId == fields[i].id {
            found := true;
            break;
          }
          j := j + 1;
        }
        if !found {
          return Fail(MissingRequired(fields[i].id));
        }
      }
    }

    for i := 0 to |answers|
      invariant CheckAnswers(fieldMap, answers) == CheckAnswers(fieldMap, answers[i..])
    {
      assert answers[i..][1..] == answers[i + 1..];
      var a := answers[i];
      if a.fieldId !in fieldMap {
        return Fail(UnknownField(a.fieldId));
      }
      var f := fieldMap[a.fieldId];
      var res := TypeCheck(f, a.value);
      if res.Fail? {
        return res;
      }
    }
    return Pass;
  }
}
