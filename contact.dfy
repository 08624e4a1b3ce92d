/**
 * The contact form of `src/components/Contact.js`: the three-field form
 * state, its validator (required fields after `trim()`, and the unanchored
 * email pattern `\S+@\S+\.\S+`) and the change and submit handlers.
 */
module Contact {
  import opened JsString

  datatype Field = Name | Email | Message

  datatype FormData = FormData(name: string, email: string, message: string)

  const EmptyForm := FormData("", "", "")

  const NameRequired := "El nombre es obligatorio"
  const EmailRequired := "El correo es obligatorio"
  const EmailInvalid := "Correo inválido"
  const MessageRequired := "El mensaje es obligatorio"

  function Get(f: FormData, field: Field): string {
    match field
    case Name => f.name
    case Email => f.email
    case Message => f.message
  }

  /** `{...formData, [field]: value}` */
  function With(f: FormData, field: Field, value: string): (r: FormData)
    ensures Get(r, field) == value
    ensures forall other | other != field :: Get(r, other) == Get(f, other)
  {
    match field
    case Name => f.(name := value)
    case Email => f.(email := value)
    case Message => f.(message := value)
  }

  // ------------------------------------------------------- email pattern

  /**
   * `/\S+@\S+\.\S+/.test(s)`: some `@` and a later `.`, with at least one
   * character between them, and the stretch from the character before the
   * `@` to the character after the `.` free of white space (`@` and `.` are
   * themselves `\S`). The pattern has no anchors, so the rest of `s` may be
   * anything, spaces included.
   */
  predicate MatchesEmailPattern(s: string) {
    exists at, dot | 0 < at < |s| && at + 1 < dot < |s| - 1 :: EmailAt(s, at, dot)
  }

  predicate EmailAt(s: string, at: int, dot: int)
    requires 0 < at && at + 1 < dot < |s| - 1
  {
    s[at] == '@' && s[dot] == '.' && NoWhiteSpace(s[at - 1..dot + 2])
  }

  /** `^\S+@\S+\.\S+$`: the whole of `t` has the shape `x@y.z`, each part non-empty and space-free. */
  predicate EmailShape(t: string) {
    NoWhiteSpace(t) && exists at, dot | 0 < at < |t| && at + 1 < dot < |t| - 1 :: t[at] == '@' && t[dot] == '.'
  }

  /** A test with an unanchored pattern succeeds exactly when some infix matches it whole. */
  lemma MatchesEmailPatternIff(s: string)
    ensures MatchesEmailPattern(s) <==> exists i, j | 0 <= i <= j <= |s| :: EmailShape(s[i..j])
  {
    if MatchesEmailPattern(s) {
      var at, dot :| 0 < at < |s| && at + 1 < dot < |s| - 1 && EmailAt(s, at, dot);
      EmailAtShape(s, at, dot);
    }
    if exists i, j | 0 <= i <= j <= |s| :: EmailShape(s[i..j]) {
      var i, j :| 0 <= i <= j <= |s| && EmailShape(s[i..j]);
      ShapeEmailAt(s, i, j);
    }
  }

  lemma EmailAtShape(s: string, at: int, dot: int)
    requires 0 < at && at + 1 < dot < |s| - 1 && EmailAt(s, at, dot)
    ensures EmailShape(s[at - 1..dot + 2])
  {
    var t := s[at - 1..dot + 2];
    assert t[1] == '@' && t[dot - at + 1] == '.';
  }

  lemma ShapeEmailAt(s: string, i: int, j: int)
    requires 0 <= i <= j <= |s| && EmailShape(s[i..j])
    ensures MatchesEmailPattern(s)
  {
    var t := s[i..j];
    var at, dot :| 0 < at < |t| && at + 1 < dot < |t| - 1 && t[at] == '@' && t[dot] == '.';
    NoWhiteSpaceWithin(s, i, j, i + at - 1, i + dot + 2);
    assert EmailAt(s, i + at, i + dot);
  }

  /** Every stretch of a space-free stretch of `s` is space-free. */
  lemma NoWhiteSpaceWithin(s: string, i: int, j: int, a: int, d: int)
    requires 0 <= i <= a <= d <= j <= |s| && NoWhiteSpace(s[i..j])
    ensures NoWhiteSpace(s[a..d])
  {
    forall k | 0 <= k < d - a
      ensures !IsWhiteSpace(s[a..d][k])
    {
      assert s[a..d][k] == s[i..j][a - i + k];
    }
  }

  /** Accepted as written: spaces around the address, a space inside the local part. */
  lemma EmailPatternAccepts()
    ensures MatchesEmailPattern(" a@b.c ")
    ensures MatchesEmailPattern("x y@z.w")
    ensures MatchesEmailPattern("a@b.c")
  {
    assert EmailAt(" a@b.c ", 2, 4);
    assert EmailAt("x y@z.w", 3, 5);
    assert EmailAt("a@b.c", 1, 3);
  }

  /** Rejected: no dot after the `@`, nothing before the `@`, a space between `@` and dot. */
  lemma EmailPatternRejects()
    ensures !MatchesEmailPattern("a@b")
    ensures !MatchesEmailPattern("@b.c")
    ensures !MatchesEmailPattern("a@b .c")
  {
    var s := "a@b .c";
    forall at, dot | 0 < at < |s| && at + 1 < dot < |s| - 1
      ensures !EmailAt(s, at, dot)
    {
      if at == 1 && dot == 4 {
        assert s[at - 1..dot + 2][3] == ' ';
      }
    }
  }

  // ------------------------------------------------------------ validate

  /**
   * `validate()`: one message per field that fails. A blank email is
   * reported as missing, and only a non-blank one is tested against the
   * pattern — the untrimmed value is the one tested.
   */
  function Validate(f: FormData): (errors: map<Field, string>)
    ensures errors.Keys <= {Name, Email, Message}
    ensures Name in errors <==> AllWhiteSpace(f.name)
    ensures Name in errors ==> errors[Name] == NameRequired
    ensures Email in errors <==> AllWhiteSpace(f.email) || !MatchesEmailPattern(f.email)
    ensures Email in errors ==> errors[Email] == if AllWhiteSpace(f.email) then EmailRequired else EmailInvalid
    ensures Message in errors <==> AllWhiteSpace(f.message)
    ensures Message in errors ==> errors[Message] == MessageRequired
  {
    var withName := Flag(map[], Name, IsBlank(f.name), NameRequired);
    var withEmail :=
      if IsBlank(f.email) then Flag(withName, Email, true, EmailRequired)
      else Flag(withName, Email, !MatchesEmailPattern(f.email), EmailInvalid);
    Flag(withEmail, Message, IsBlank(f.message), MessageRequired)
  }

  /** `if (failed) newErrors[field] = message` */
  function Flag(errors: map<Field, string>, field: Field, failed: bool, message: string): (r: map<Field, string>)
    ensures r.Keys == if failed then errors.Keys + {field} else errors.Keys
    ensures forall other | other in r :: r[other] == if failed && other == field then message else errors[other]
  {
    if failed then errors[field := message] else errors
  }

  /** `!s.trim()`: nothing but white space, the empty string included. */
  predicate IsBlank(s: string)
    ensures IsBlank(s) <==> AllWhiteSpace(s)
  {
    TrimEmptyIff(s);
    Trim(s) == []
  }

  /** The form is accepted exactly when every field has content and the email matches. */
  lemma ValidateEmptyIff(f: FormData)
    ensures |Validate(f)| == 0 <==>
              !AllWhiteSpace(f.name) && !AllWhiteSpace(f.message)
              && !AllWhiteSpace(f.email) && MatchesEmailPattern(f.email)
  {
    var e := Validate(f);
    if |e| == 0 {
      assert Name !in e && Email !in e && Message !in e;
    } else {
      var k :| k in e;
    }
  }

  /** A blank form, as the component starts and as it resets, fails all three checks. */
  lemma ValidateEmptyForm()
    ensures Validate(EmptyForm) == map[Name := NameRequired, Email := EmailRequired, Message := MessageRequired]
  {
    var e := Validate(EmptyForm);
    assert AllWhiteSpace(EmptyForm.name) && AllWhiteSpace(EmptyForm.email) && AllWhiteSpace(EmptyForm.message);
    assert e.Keys == {Name, Email, Message};
  }

  /** An example that passes: padded name, padded but well-formed email, message. */
  lemma ValidateAcceptsExample()
    ensures Validate(FormData(" Ana ", " a@b.c ", "Hola")) == map[]
  {
    EmailPatternAccepts();
    assert !IsWhiteSpace(" Ana "[1]) && !IsWhiteSpace("Hola"[0]) && !IsWhiteSpace(" a@b.c "[1]);
    ValidateEmptyIff(FormData(" Ana ", " a@b.c ", "Hola"));
  }

  // ----------------------------------------------------------- component

  /** The component's state: `formData`, `errors` and `submitted`. */
  class ContactForm {
    var formData: FormData
    var errors: map<Field, string>
    var submitted: bool

    /** The initial `useState` values. */
    constructor ()
      ensures formData == EmptyForm && errors == map[] && !submitted
    {
      formData := EmptyForm;
      errors := map[];
      submitted := false;
    }

    /** `handleChange`: only the edited field changes; errors and `submitted` stay. */
    method HandleChange(field: Field, value: string)
      modifies this`formData
      ensures Get(formData, field) == value
      ensures forall other | other != field :: Get(formData, other) == Get(old(formData), other)
    {
      formData := With(formData, field, value);
    }

    /**
     * `handleSubmit`: a valid form is sent and cleared; an invalid one keeps
     * its data and shows the validator's messages.
     */
    method HandleSubmit()
      modifies this
      ensures |old(Validate(formData))| == 0 ==> submitted && formData == EmptyForm && errors == map[]
      ensures |old(Validate(formData))| != 0 ==> !submitted && formData == old(formData) && errors == old(Validate(formData))
    {
      var validationErrors := Validate(formData);
      if |validationErrors| == 0 {
        submitted := true;
        formData := EmptyForm;
        errors := map[];
      } else {
        submitted := false;
        errors := validationErrors;
      }
    }
  }
}
