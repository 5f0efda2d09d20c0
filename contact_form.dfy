/**
 * The contact form's validation: the three field validators, the e-mail pattern, the
 * per-field live validation driven by `blur` and `input` events, and the submit handler
 * that writes all three error texts and lets the submission through only when none is set.
 */
module ContactForm {

  import opened JsText

  /** Inline border colour given to a field whose value is rejected. */
  const ErrorBorder: string := "#ef4444"
  /** Inline border colour given to a field whose value is accepted. */
  const AccentBorder: string := "var(--accent-primary)"

  const NameRequired: string := "Name is required"
  const NameTooShort: string := "Name must be at least 2 characters"
  const EmailRequired: string := "Email is required"
  const EmailInvalid: string := "Please enter a valid email"
  const MessageRequired: string := "Message is required"
  const MessageTooShort: string := "Message must be at least 10 characters"

  /** A run of characters matched by the regular-expression class `[^\s@]`. */
  ghost predicate NoSpaceOrAt(t: string) {
    forall k :: 0 <= k < |t| ==> !IsWhitespace(t[k]) && t[k] != '@'
  }

  /** The regular expression `^[^\s@]+@[^\s@]+\.[^\s@]+$` read as the concatenation of
      its five parts: three non-empty runs of `[^\s@]`, separated by `@` and by `.`. */
  ghost predicate MatchesEmailRegex(s: string) {
    exists a, b, c ::
      && a != [] && b != [] && c != []
      && NoSpaceOrAt(a) && NoSpaceOrAt(b) && NoSpaceOrAt(c)
      && s == a + "@" + b + "." + c
  }

  /** `emailPattern.test(s)`, decided directly: no white space anywhere, exactly one `@`,
      something before it, and after it a `.` that is neither the first nor the last character. */
  predicate EmailPattern(s: string) {
    && (forall k | 0 <= k < |s| :: !IsWhitespace(s[k]))
    && exists at | 0 < at < |s| ::
         && s[at] == '@'
         && (forall j | 0 <= j < |s| && j != at :: s[j] != '@')
         && (exists dot | at + 1 < dot < |s| - 1 :: s[dot] == '.')
  }

  lemma EmailPatternFromRegex(s: string, a: string, b: string, c: string)
    requires a != [] && b != [] && c != []
    requires NoSpaceOrAt(a) && NoSpaceOrAt(b) && NoSpaceOrAt(c)
    requires s == a + "@" + b + "." + c
    ensures EmailPattern(s)
  {
    var at, dot := |a|, |a| + 1 + |b|;
    forall k | 0 <= k < |s| ensures !IsWhitespace(s[k]) && (k != at ==> s[k] != '@') {
      if k < at {
        assert s[k] == a[k];
      } else if at < k < dot {
        assert s[k] == b[k - at - 1];
      } else if k > dot {
        assert s[k] == c[k - dot - 1];
      }
    }
    assert s[at] == '@' && s[dot] == '.';
  }

  lemma RegexFromEmailPattern(s: string)
    requires EmailPattern(s)
    ensures MatchesEmailRegex(s)
  {
    var at :| 0 < at < |s| && s[at] == '@'
              && (forall j | 0 <= j < |s| && j != at :: s[j] != '@')
              && (exists dot | at + 1 < dot < |s| - 1 :: s[dot] == '.');
    var dot :| at + 1 < dot < |s| - 1 && s[dot] == '.';
    var a, b, c := s[..at], s[at + 1..dot], s[dot + 1..];
    assert s == a + "@" + b + "." + c;
    assert NoSpaceOrAt(a) by {
      forall k | 0 <= k < |a| ensures !IsWhitespace(a[k]) && a[k] != '@' {
        assert a[k] == s[k];
      }
    }
    assert NoSpaceOrAt(b) by {
      forall k | 0 <= k < |b| ensures !IsWhitespace(b[k]) && b[k] != '@' {
        assert b[k] == s[at + 1 + k];
      }
    }
    assert NoSpaceOrAt(c) by {
      forall k | 0 <= k < |c| ensures !IsWhitespace(c[k]) && c[k] != '@' {
        assert c[k] == s[dot + 1 + k];
      }
    }
  }

  /** The direct decision procedure and the regular expression accept the same strings. */
  lemma EmailPatternIsRegex(s: string)
    ensures EmailPattern(s) <==> MatchesEmailRegex(s)
  {
    if EmailPattern(s) {
      RegexFromEmailPattern(s);
    }
    if MatchesEmailRegex(s) {
      var a, b, c :| && a != [] && b != [] && c != []
                     && NoSpaceOrAt(a) && NoSpaceOrAt(b) && NoSpaceOrAt(c)
                     && s == a + "@" + b + "." + c;
      EmailPatternFromRegex(s, a, b, c);
    }
  }

  /** `validateName`: required, and at least 2 UTF-16 code units once trimmed. */
  function ValidateName(value: string): (r: string)
    ensures r == "" <==> Utf16Length(Trim(value)) >= 2
    ensures r == NameRequired <==> Trim(value) == ""
    ensures r == NameTooShort <==> Trim(value) != "" && Utf16Length(Trim(value)) < 2
  {
    if Trim(value) == "" then NameRequired
    else if Utf16Length(Trim(value)) < 2 then NameTooShort
    else ""
  }

  /** `validateEmail`: required once trimmed, but the pattern is tested on the untrimmed value. */
  function ValidateEmail(value: string): (r: string)
    ensures r == "" <==> EmailPattern(value)
    ensures r == EmailRequired <==> Trim(value) == ""
    ensures r == EmailInvalid <==> Trim(value) != "" && !EmailPattern(value)
  {
    if Trim(value) == "" then EmailRequired
    else if !EmailPattern(value) then EmailInvalid
    else ""
  }

  /** `validateMessage`: required, and at least 10 UTF-16 code units once trimmed. */
  function ValidateMessage(value: string): (r: string)
    ensures r == "" <==> Utf16Length(Trim(value)) >= 10
    ensures r == MessageRequired <==> Trim(value) == ""
    ensures r == MessageTooShort <==> Trim(value) != "" && Utf16Length(Trim(value)) < 10
  {
    if Trim(value) == "" then MessageRequired
    else if Utf16Length(Trim(value)) < 10 then MessageTooShort
    else ""
  }

  /** An e-mail address with white space at either end is reported as malformed, not as missing. */
  lemma PaddedEmailIsInvalid(value: string)
    requires Trim(value) != "" && Trim(value) != value
    ensures ValidateEmail(value) == EmailInvalid
  {
  }

  /** Length is counted in UTF-16 code units, so one character outside the Basic
      Multilingual Plane already satisfies the two-character minimum of a name. */
  lemma AstralCharacterIsLongEnoughName(c: char)
    requires c as int >= 0x1_0000
    ensures ValidateName([c]) == ""
  {
    var s := [c];
    assert NoWhitespace(s) by {
      assert !IsWhitespace(c);
    }
    assert Utf16Length(s) == 2 by {
      assert s[1..] == [];
    }
  }

  /** Inputs too short or missing in all three fields are rejected with three error texts. */
  lemma ShortInputsAreAllRejected(name: string, email: string, message: string)
    requires Utf16Length(Trim(name)) < 2 && Trim(email) == "" && Utf16Length(Trim(message)) < 10
    ensures ValidateName(name) != "" && ValidateMessage(message) != ""
    ensures ValidateEmail(email) == EmailRequired
  {
  }

  /** A long-enough name and message with an address of the form local@domain.tld pass all three validators. */
  lemma WellFormedInputsAreAccepted(name: string, local: string, domain: string, tld: string, message: string)
    requires Utf16Length(Trim(name)) >= 2 && Utf16Length(Trim(message)) >= 10
    requires local != [] && domain != [] && tld != []
    requires NoSpaceOrAt(local) && NoSpaceOrAt(domain) && NoSpaceOrAt(tld)
    ensures ValidateName(name) == ""
    ensures ValidateEmail(local + "@" + domain + "." + tld) == ""
    ensures ValidateMessage(message) == ""
  {
    EmailPatternFromRegex(local + "@" + domain + "." + tld, local, domain, tld);
  }

  /** The three inputs the page wires `validateField` to, each with its validator. */
  datatype FieldKind = NameField | EmailField | MessageField

  /** The validator `validateField` is given for each input: a value is accepted by the length
      of its trimmed text for the name and the message, and by the pattern for the e-mail. */
  function Validate(kind: FieldKind, value: string): (r: string)
    ensures kind == NameField ==> (r == "" <==> Utf16Length(Trim(value)) >= 2)
    ensures kind == EmailField ==> (r == "" <==> EmailPattern(value))
    ensures kind == MessageField ==> (r == "" <==> Utf16Length(Trim(value)) >= 10)
    ensures r != "" && Trim(value) == "" ==> r in {NameRequired, EmailRequired, MessageRequired}
  {
    match kind
    case NameField => ValidateName(value)
    case EmailField => ValidateEmail(value)
    case MessageField => ValidateMessage(value)
  }

  /** One validated input: the text of its error element and its inline border colour. */
  class Field {
    const kind: FieldKind
    var error: string
    var border: string

    /** A shown error always comes with the red border. */
    ghost predicate Valid()
      reads this
    {
      error != "" ==> border == ErrorBorder
    }

    constructor (k: FieldKind)
      ensures kind == k && error == "" && border == ""
      ensures Valid()
    {
      kind := k;
      error := "";
      border := "";
    }

    /** The `blur` listener: show the validator's verdict and colour the border by it. */
    method Blur(value: string)
      modifies this
      ensures error == Validate(kind, value)
      ensures border == if error != "" then ErrorBorder else AccentBorder
      ensures Valid()
    {
      var e := Validate(kind, value);
      error := e;
      if e != "" {
        border := ErrorBorder;
      } else {
        border := AccentBorder;
      }
    }

    /** The `input` listener: re-validate only while an error is shown; the border turns
        to the accent colour once the value is accepted and is otherwise left alone. */
    method Input(value: string)
      modifies this
      ensures old(error) == "" ==> error == old(error) && border == old(border)
      ensures old(error) != "" ==> error == Validate(kind, value)
      ensures old(error) != "" ==> border == if error == "" then AccentBorder else old(border)
      ensures old(Valid()) ==> Valid()
    {
      if error != "" {
        var e := Validate(kind, value);
        error := e;
        if e == "" {
          border := AccentBorder;
        }
      }
    }
  }

  /** The form: its name, e-mail and message inputs. */
  class Form {
    const name: Field
    const email: Field
    const message: Field

    ghost predicate Valid()
      reads name, email, message
    {
      && name != email && email != message && name != message
      && name.kind == NameField && email.kind == EmailField && message.kind == MessageField
    }

    constructor ()
      ensures Valid() && name.Valid() && email.Valid() && message.Valid()
      ensures fresh(name) && fresh(email) && fresh(message)
      ensures name.error == "" && email.error == "" && message.error == ""
    {
      name := new Field(NameField);
      email := new Field(EmailField);
      message := new Field(MessageField);
    }

    /** The `submit` listener up to the network request: all three error texts are written,
        the request goes out exactly when all three are empty, and only rejected fields turn red. */
    method Submit(nameValue: string, emailValue: string, messageValue: string) returns (sent: bool)
      requires Valid()
      modifies name, email, message
      ensures Valid() && name.Valid() && email.Valid() && message.Valid()
      ensures name.error == ValidateName(nameValue)
      ensures email.error == ValidateEmail(emailValue)
      ensures message.error == ValidateMessage(messageValue)
      ensures sent <==> name.error == "" && email.error == "" && message.error == ""
      ensures name.border == if name.error != "" then ErrorBorder else old(name.border)
      ensures email.border == if email.error != "" then ErrorBorder else old(email.border)
      ensures message.border == if message.error != "" then ErrorBorder else old(message.border)
    {
      var nameError := ValidateName(nameValue);
      var emailError := ValidateEmail(emailValue);
      var messageError := ValidateMessage(messageValue);
      name.error := nameError;
      email.error := emailError;
      message.error := messageError;
      if nameError != "" || emailError != "" || messageError != "" {
        if nameError != "" { name.border := ErrorBorder; }
        if emailError != "" { email.border := ErrorBorder; }
        if messageError != "" { message.border := ErrorBorder; }
        return false;
      }
      sent := true;
    }
  }
}
