/** Contact-form validation (script.js:639-734): per-field rules on the
    trimmed value, and the submit handler that validates every field. */
module ContactForm {
  import opened Text

  /** One input, textarea or select of the form: its name attribute, its
      value and, for the checkbox, whether it is checked. */
  datatype Field = Field(name: string, value: string, checked: bool)

  /** Validity and the message shown in the field's error element; the
      message is empty exactly when the field is valid. */
  datatype Verdict = Verdict(valid: bool, error: string)

  const NameRequired := "이름을 입력해주세요."
  const NameTooShort := "이름은 2글자 이상 입력해주세요."
  const EmailRequired := "이메일을 입력해주세요."
  const EmailMalformed := "올바른 이메일 형식을 입력해주세요."
  const PhoneMalformed := "올바른 전화번호 형식을 입력해주세요."
  const MessageRequired := "문의 내용을 입력해주세요."
  const MessageTooShort := "문의 내용은 10글자 이상 입력해주세요."
  const PrivacyRequired := "개인정보 처리방침에 동의해주세요."

  const MinNameLength := 2
  const MinMessageLength := 10

  const Ok := Verdict(true, "")

  /** The character class [^\s@]. */
  predicate EmailAtom(c: char)
  {
    !IsSpace(c) && c != '@'
  }

  predicate AllAtoms(s: string)
  {
    forall i :: 0 <= i < |s| ==> EmailAtom(s[i])
  }

  /** The regular expression /^[^\s@]+@[^\s@]+\.[^\s@]+$/ read literally:
      s splits at an '@' and a later '.' into three non-empty runs of
      characters that are neither white space nor '@'. */
  ghost predicate EmailPattern(s: string)
  {
    exists at, dot :: 0 < at && at + 1 < dot && dot + 1 < |s|
      && s[at] == '@' && s[dot] == '.'
      && AllAtoms(s[..at]) && AllAtoms(s[at + 1..dot]) && AllAtoms(s[dot + 1..])
  }

  /** The matcher the validator runs: no white space, a single '@' that is
      not first, and after it a '.' with at least one character on each
      side. */
  predicate EmailShape(s: string)
  {
    var at := Seqs.IndexOf(s, '@');
    && 0 < at < |s|
    && AllAtoms(s[..at])
    && var domain := s[at + 1..];
       && AllAtoms(domain)
       && |domain| >= 3 && '.' in domain[1..|domain| - 1]
  }

  lemma AtomsSlice(s: string, lo: int, hi: int)
    requires AllAtoms(s) && 0 <= lo <= hi <= |s|
    ensures AllAtoms(s[lo..hi])
  {
    var t := s[lo..hi];
    forall i | 0 <= i < |t| ensures EmailAtom(t[i]) {
      assert t[i] == s[lo + i];
    }
  }


  lemma ShapeHasPattern(s: string)
    requires EmailShape(s)
    ensures EmailPattern(s)
  {
    var at := Seqs.IndexOf(s, '@');
    var domain := s[at + 1..];
    var inner := domain[1..|domain| - 1];
    var k := Seqs.IndexOf(inner, '.');
    var dot := at + 2 + k;
    assert s[dot] == inner[k];
    assert s[at + 1..dot] == domain[..k + 1];
    assert s[dot + 1..] == domain[k + 2..];
    AtomsSlice(domain, 0, k + 1);
    AtomsSlice(domain, k + 2, |domain|);
  }

  /** Everything after the '@' of a pattern match is '.' or an atom. */
  lemma DomainAtoms(s: string, at: int, dot: int)
    requires 0 < at && at + 1 < dot && dot + 1 < |s| && s[dot] == '.'
    requires AllAtoms(s[at + 1..dot]) && AllAtoms(s[dot + 1..])
    ensures AllAtoms(s[at + 1..])
  {
    var domain := s[at + 1..];
    forall i | 0 <= i < |domain| ensures EmailAtom(domain[i]) {
      var k := at + 1 + i;
      assert domain[i] == s[k];
      if k < dot {
        var left := s[at + 1..dot];
        assert left[i] == s[k];
        assert EmailAtom(left[i]);
      } else if k > dot {
        var right := s[dot + 1..];
        assert right[k - dot - 1] == s[k];
        assert EmailAtom(right[k - dot - 1]);
      } else {
        assert s[k] == '.';
      }
    }
  }

  /** An '@' with only atoms before it is the first '@'. */
  lemma FirstAt(s: string, at: int)
    requires 0 <= at < |s| && s[at] == '@' && AllAtoms(s[..at])
    ensures Seqs.IndexOf(s, '@') == at
  {
    forall i | 0 <= i < at ensures s[i] != '@' {
      assert s[..at][i] == s[i];
    }
  }

  /** A '.' strictly inside the domain lies in its interior slice. */
  lemma DotInside(domain: string, j: int)
    requires 0 < j < |domain| - 1 && domain[j] == '.'
    ensures '.' in domain[1..|domain| - 1]
  {
    assert domain[1..|domain| - 1][j - 1] == '.';
  }

  /** A split at an '@' and a later '.' into three runs of atoms has the
      matcher's shape. */
  lemma ShapeFromParts(s: string, at: int, dot: int)
    requires 0 < at && at + 1 < dot && dot + 1 < |s|
    requires s[at] == '@' && s[dot] == '.'
    requires AllAtoms(s[..at]) && AllAtoms(s[at + 1..dot]) && AllAtoms(s[dot + 1..])
    ensures EmailShape(s)
  {
    FirstAt(s, at);
    DomainAtoms(s, at, dot);
    DotInside(s[at + 1..], dot - at - 1);
  }

  lemma PatternHasShape(s: string)
    requires EmailPattern(s)
    ensures EmailShape(s)
  {
    var at, dot :| 0 < at && at + 1 < dot && dot + 1 < |s|
      && s[at] == '@' && s[dot] == '.'
      && AllAtoms(s[..at]) && AllAtoms(s[at + 1..dot]) && AllAtoms(s[dot + 1..]);
    ShapeFromParts(s, at, dot);
  }

  /** The matcher accepts exactly the strings the regular expression
      describes. */
  lemma EmailShapeIsPattern(s: string)
    ensures EmailShape(s) <==> EmailPattern(s)
  {
    if EmailShape(s) { ShapeHasPattern(s); }
    if EmailPattern(s) { PatternHasShape(s); }
  }

  /** The character class [0-9-+\s()]. */
  predicate PhoneChar(c: char)
  {
    ('0' <= c <= '9') || c == '-' || c == '+' || IsSpace(c) || c == '(' || c == ')'
  }

  /** /^[0-9-+\s()]+$/: a non-empty run of phone characters. */
  predicate PhoneShape(s: string)
  {
    |s| > 0 && forall i :: 0 <= i < |s| ==> PhoneChar(s[i])
  }

  /** The rules the switch in validateField selects by field name. */
  datatype Rule = NameRule | EmailRule | PhoneRule | MessageRule | PrivacyRule | NoRule

  function RuleFor(name: string): (r: Rule)
    ensures r == NoRule <==> name !in {"name", "email", "phone", "message", "privacy"}
  {
    if name == "name" then NameRule
    else if name == "email" then EmailRule
    else if name == "phone" then PhoneRule
    else if name == "message" then MessageRule
    else if name == "privacy" then PrivacyRule
    else NoRule
  }

  /** A rule applied to a trimmed value t (and, for the checkbox, its
      checked state). */
  function Check(rule: Rule, t: string, checked: bool): (v: Verdict)
    ensures v.valid <==> v.error == ""
  {
    match rule
    case NameRule =>
      if t == [] then Verdict(false, NameRequired)
      else if |t| < MinNameLength then Verdict(false, NameTooShort)
      else Ok
    case EmailRule =>
      if t == [] then Verdict(false, EmailRequired)
      else if !EmailShape(t) then Verdict(false, EmailMalformed)
      else Ok
    case PhoneRule =>
      if t != [] && !PhoneShape(t) then Verdict(false, PhoneMalformed)
      else Ok
    case MessageRule =>
      if t == [] then Verdict(false, MessageRequired)
      else if |t| < MinMessageLength then Verdict(false, MessageTooShort)
      else Ok
    case PrivacyRule =>
      if !checked then Verdict(false, PrivacyRequired)
      else Ok
    case NoRule => Ok
  }

  /** validateField's decision for one field: the rule its name selects,
      applied to the trimmed value (the checkbox to its checked state); a name
      without a rule is always valid. */
  function ValidateField(f: Field): (v: Verdict)
    ensures v.valid <==> v.error == ""
    ensures RuleFor(f.name) == NoRule ==> v.valid
  {
    Check(RuleFor(f.name), Trim(f.value), f.checked)
  }

  /** Only the trimmed value matters: surrounding white space never changes
      the verdict. */
  lemma TrimDoesNotMatter(f: Field)
    ensures ValidateField(f.(value := Trim(f.value))) == ValidateField(f)
  {
    TrimIdempotent(f.value);
  }

  /** A required name or message that is blank or only white space gets the
      "please enter" message, not the "too short" one; a non-blank value
      shorter than the threshold gets the "too short" one. */
  lemma RequiredTextVerdict(f: Field)
    requires RuleFor(f.name) == NameRule || RuleFor(f.name) == MessageRule
    ensures AllSpace(f.value) ==> ValidateField(f).error == (if RuleFor(f.name) == NameRule then NameRequired else MessageRequired)
    ensures !AllSpace(f.value) ==>
      var min := if RuleFor(f.name) == NameRule then MinNameLength else MinMessageLength;
      (ValidateField(f).valid <==> |Trim(f.value)| >= min)
      && (!ValidateField(f).valid ==> ValidateField(f).error == (if RuleFor(f.name) == NameRule then NameTooShort else MessageTooShort))
  {
    TrimEmptyIffAllSpace(f.value);
  }

  /** The email rule: a blank value is "required"; otherwise the value is
      valid exactly when its trimmed form matches the email expression, and
      the failure message is the "malformed" one. */
  lemma EmailVerdict(f: Field)
    requires RuleFor(f.name) == EmailRule
    ensures AllSpace(f.value) ==> ValidateField(f) == Verdict(false, EmailRequired)
    ensures !AllSpace(f.value) ==>
      ValidateField(f) == if EmailPattern(Trim(f.value)) then Ok else Verdict(false, EmailMalformed)
  {
    TrimEmptyIffAllSpace(f.value);
    EmailShapeIsPattern(Trim(f.value));
  }

  /** The phone rule: the field is optional, so a blank value is valid; a
      value with something in it is valid exactly when every character of its
      trimmed form is a digit, '-', '+', white space or a parenthesis. */
  lemma PhoneVerdict(f: Field)
    requires RuleFor(f.name) == PhoneRule
    ensures AllSpace(f.value) ==> ValidateField(f).valid
    ensures ValidateField(f).valid <==> forall i :: 0 <= i < |Trim(f.value)| ==> PhoneChar(Trim(f.value)[i])
    ensures !ValidateField(f).valid ==> ValidateField(f).error == PhoneMalformed
  {
    TrimEmptyIffAllSpace(f.value);
  }

  /** The privacy checkbox is valid exactly when checked, whatever its value. */
  lemma PrivacyVerdict(f: Field)
    requires RuleFor(f.name) == PrivacyRule
    ensures ValidateField(f).valid <==> f.checked
    ensures !f.checked ==> ValidateField(f).error == PrivacyRequired
  {
  }

  /** A blank email is reported as missing. */
  lemma BlankEmailExample()
    ensures ValidateField(Field("email", "", false)) == Verdict(false, EmailRequired)
  {
  }

  lemma PlainAddressShape()
    ensures EmailShape("a@b.co")
  {
    var e := "a@b.co";
    assert e[..1] == "a" && e[2..3] == "b" && e[4..] == "co";
    ShapeFromParts(e, 1, 3);
  }

  /** A plain address is accepted. */
  lemma PlainEmailExample()
    ensures ValidateField(Field("email", "a@b.co", false)) == Ok
  {
    var e := "a@b.co";
    assert TrimStart(e) == e;
    assert TrimEnd(e) == e;
    PlainAddressShape();
    assert RuleFor("email") == EmailRule;
    assert Check(EmailRule, e, false) == Ok;
  }

  /** A five-character message is too short. */
  lemma ShortMessageExample()
    ensures ValidateField(Field("message", "short", false)) == Verdict(false, MessageTooShort)
  {
    var m := "short";
    assert TrimStart(m) == m;
    assert TrimEnd(m) == m;
    assert Trim(m) == m && |m| == 5;
    assert RuleFor("message") == MessageRule;
  }

  /** A nineteen-character message is long enough. */
  lemma LongMessageExample()
    ensures ValidateField(Field("message", "this is long enough", false)) == Ok
  {
    var m := "this is long enough";
    assert TrimStart(m) == m;
    assert TrimEnd(m) == m;
    assert Trim(m) == m && |m| == 19;
    assert RuleFor("message") == MessageRule;
    assert Check(MessageRule, m, false) == Ok;
  }

  /** Every field is valid. */
  predicate FormValid(fields: seq<Field>)
  {
    forall i :: 0 <= i < |fields| ==> ValidateField(fields[i]).valid
  }

  /** handleFormSubmit's validation pass: every field is validated, with no
      early exit, so every invalid field receives its message; the form is
      valid exactly when all fields are. */
  method ValidateForm(fields: seq<Field>) returns (formValid: bool, verdicts: seq<Verdict>)
    ensures |verdicts| == |fields|
    ensures forall i :: 0 <= i < |fields| ==> verdicts[i] == ValidateField(fields[i])
    ensures formValid <==> FormValid(fields)
    ensures !formValid <==> exists i :: 0 <= i < |fields| && verdicts[i].error != ""
  {
    formValid := true;
    verdicts := [];
    var i := 0;
    while i < |fields|
      invariant 0 <= i <= |fields|
      invariant |verdicts| == i
      invariant forall j :: 0 <= j < i ==> verdicts[j] == ValidateField(fields[j])
      invariant formValid <==> forall j :: 0 <= j < i ==> ValidateField(fields[j]).valid
    {
      var v := ValidateField(fields[i]);
      if !v.valid {
        formValid := false;
      }
      verdicts := verdicts + [v];
      i := i + 1;
    }
  }
}
