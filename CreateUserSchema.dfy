/**
 * `createUserSchema` of the create-user form: the shared rules plus the avatar
 * chain (a file is present, at most 5 MiB, one of four image types), and the
 * advisory password-strength test shown next to the password field.
 */
module CreateUserSchema {
  import opened JsText
  import opened UserRules

  const MaxFileSize: nat := 5 * 1024 * 1024
  const AcceptedImageTypes: seq<string> := ["image/jpeg", "image/jpg", "image/png", "image/webp"]

  /** The avatar chain with its presence check in effect: presence, then size,
      then type; on success the output is the first file, unchanged. */
  function CheckAvatar(files: seq<File>): (r: Checked<File>)
    ensures r == Fail(AvatarRequired) <==> |files| == 0
    ensures r == Fail(AvatarTooLarge) <==> |files| > 0 && files[0].size > 5242880
    ensures r == Fail(AvatarBadType)
        <==> |files| > 0 && files[0].size <= 5242880 && files[0].mimeType !in AcceptedImageTypes
    ensures r.Pass? <==> |files| > 0 && files[0].size <= 5242880 && files[0].mimeType in AcceptedImageTypes
    ensures r.Pass? ==> r.value == files[0]
    ensures !r.Crash?
  {
    if |files| == 0 then Fail(AvatarRequired)
    else if files[0].size > MaxFileSize then Fail(AvatarTooLarge)
    else if files[0].mimeType !in AcceptedImageTypes then Fail(AvatarBadType)
    else Pass(files[0])
  }

  /** The avatar chain as the schema runs it: a failed refinement does not stop
      the next one, so with no file the size refinement reads `size` of `null`
      and throws before the presence message can be reported. */
  function AvatarAsWritten(files: seq<File>): (r: Checked<File>)
    ensures r == Crash <==> |files| == 0
    ensures |files| > 0 ==> r == CheckAvatar(files)
  {
    if |files| == 0 then Crash else CheckAvatar(files)
  }

  /** The schema, with the presence check in effect: only the name transform
      can make it throw. */
  function Validate(raw: RawUser, isEmail: string -> bool): (o: Outcome)
    ensures o == Crashed <==> CheckName(raw.name) == Crash
  {
    Assemble(CheckAvatar(raw.avatar), CheckName(raw.name), raw, isEmail)
  }

  /** The schema as it runs: it throws when there is no file or the name
      transform throws, and otherwise agrees with `Validate`. */
  function ValidateAsWritten(raw: RawUser, isEmail: string -> bool): (o: Outcome)
    ensures o == Crashed <==> |raw.avatar| == 0 || CheckName(raw.name) == Crash
    ensures |raw.avatar| > 0 ==> o == Validate(raw, isEmail)
  {
    Assemble(AvatarAsWritten(raw.avatar), CheckName(raw.name), raw, isEmail)
  }

  /** An accepted submission had a first file of at most 5 MiB and of an
      accepted type, and that file is the user's avatar. */
  lemma ValidatedUser(raw: RawUser, isEmail: string -> bool, u: User)
    requires Validate(raw, isEmail) == Parsed(u)
    ensures |raw.avatar| > 0 && u.avatar == raw.avatar[0]
    ensures u.avatar.size <= 5242880 && u.avatar.mimeType in AcceptedImageTypes
    ensures TitleCase(raw.name) == Some(u.name)
    ensures u.email == raw.email && u.password == raw.password && u.techs == raw.techs
    ensures ValidUser(u, isEmail)
  {
    ParsedUserValid(CheckAvatar(raw.avatar), raw, isEmail, u);
  }

  /** With the presence check in effect, a missing file is reported with its
      own message. */
  lemma MissingAvatarReported(raw: RawUser, isEmail: string -> bool)
    requires |raw.avatar| == 0 && CheckName(raw.name) != Crash
    ensures Validate(raw, isEmail).Rejected?
    ensures Validate(raw, isEmail).errors[AvatarPath] == AvatarRequired
  {
    ErrorsAt(CheckAvatar(raw.avatar), CheckName(raw.name), raw, isEmail, AvatarPath);
  }

  /** As the schema runs, the presence message is never reported: a missing
      file makes the parse throw, and otherwise the two readings agree. */
  lemma PresenceMessageUnreachable(raw: RawUser, isEmail: string -> bool)
    ensures |raw.avatar| == 0 ==> ValidateAsWritten(raw, isEmail) == Crashed
    ensures |raw.avatar| > 0 ==> ValidateAsWritten(raw, isEmail) == Validate(raw, isEmail)
    ensures var o := ValidateAsWritten(raw, isEmail);
      o.Rejected? && AvatarPath in o.errors ==> o.errors[AvatarPath] != AvatarRequired
  {
    var o := ValidateAsWritten(raw, isEmail);
    if o.Rejected? && AvatarPath in o.errors {
      RejectedHasErrors(AvatarAsWritten(raw.avatar), CheckName(raw.name), raw, isEmail, o.errors);
      ErrorsAt(AvatarAsWritten(raw.avatar), CheckName(raw.name), raw, isEmail, AvatarPath);
    }
  }

  // ---------------------------------------------------------------- password strength

  /** The character classes the strength pattern looks ahead for. */
  datatype CharClass = Lower | Upper | Digit | Symbol

  /** `[a-z]`, `[A-Z]`, `[0-9]` and `[^A-Za-z0-9]`. */
  predicate InClass(c: char, cls: CharClass) {
    match cls
    case Lower => 'a' <= c <= 'z'
    case Upper => 'A' <= c <= 'Z'
    case Digit => '0' <= c <= '9'
    case Symbol => !('a' <= c <= 'z' || 'A' <= c <= 'Z' || '0' <= c <= '9')
  }

  /** The characters `.` does not match. */
  predicate IsLineTerminator(c: char) {
    c == '\n' || c == '\r' || c == '\U{2028}' || c == '\U{2029}'
  }

  /** `.` matches every character of `p[i..j]`. */
  predicate DotsMatch(p: string, i: nat, j: nat)
    requires i <= j <= |p|
  {
    forall m :: i <= m < j ==> !IsLineTerminator(p[m])
  }

  /** `(?=.*[cls])` at position `i`. */
  predicate LookaheadAt(p: string, i: nat, cls: CharClass)
    requires i <= |p|
  {
    exists j :: i <= j < |p| && InClass(p[j], cls) && DotsMatch(p, i, j)
  }

  /** All five lookaheads of the pattern succeed at position `i`. */
  predicate MatchesAt(p: string, i: nat)
    requires i <= |p|
  {
    && LookaheadAt(p, i, Lower)
    && LookaheadAt(p, i, Upper)
    && LookaheadAt(p, i, Digit)
    && LookaheadAt(p, i, Symbol)
    && i + 8 <= |p| && DotsMatch(p, i, i + 8)
  }

  /** `RegExp.test` of the unanchored pattern: a match at some position. */
  predicate IsPasswordStrong(password: string) {
    exists i: nat :: i <= |password| && MatchesAt(password, i)
  }

  predicate Contains(p: string, cls: CharClass) {
    exists j :: 0 <= j < |p| && InClass(p[j], cls)
  }

  /** A strong password holds every class, has at least 8 characters, and so
      always passes the schema's `min(6)`. */
  lemma StrongIsAccepted(password: string)
    requires IsPasswordStrong(password)
    ensures |password| >= 8
    ensures Contains(password, Lower) && Contains(password, Upper)
    ensures Contains(password, Digit) && Contains(password, Symbol)
    ensures CheckPassword(password) == None
  {
    var i: nat :| i <= |password| && MatchesAt(password, i);
    forall cls ensures Contains(password, cls) {
      assert LookaheadAt(password, i, cls);
    }
  }

  /** On a single-line password the indicator is "strong" exactly when it has a
      lowercase letter, an uppercase letter, a digit, a symbol and 8 characters. */
  lemma StrongIff(password: string)
    requires forall m :: 0 <= m < |password| ==> !IsLineTerminator(password[m])
    ensures IsPasswordStrong(password)
        <==> && Contains(password, Lower) && Contains(password, Upper)
             && Contains(password, Digit) && Contains(password, Symbol)
             && |password| >= 8
  {
    if IsPasswordStrong(password) {
      StrongIsAccepted(password);
    }
    if && Contains(password, Lower) && Contains(password, Upper)
       && Contains(password, Digit) && Contains(password, Symbol)
       && |password| >= 8
    {
      forall cls ensures LookaheadAt(password, 0, cls) {
        var j :| 0 <= j < |password| && InClass(password[j], cls);
        assert DotsMatch(password, 0, j);
      }
      assert MatchesAt(password, 0);
    }
  }

  // ---------------------------------------------------------------- sample submissions

  /** The words of the sample name, capitalized. */
  lemma CapAna()
    ensures Capitalize("ana") == "Ana"
  {
    assert ToUpper('a') == 'A';
    assert "ana"[1..] == "na";
  }

  lemma CapMaria()
    ensures Capitalize("maria") == "Maria"
  {
    assert ToUpper('m') == 'M';
    assert "maria"[1..] == "aria";
  }

  /** The sample name needs no trimming and splits into two words. */
  lemma SplitAna()
    ensures Split(Trim("ana maria"), ' ') == ["ana", "maria"]
  {
    var a, b := "ana", "maria";
    assert "ana maria" == a + [' '] + b;
    TrimOfTrimmed(a + [' '] + b);
    assert ' ' !in a && ' ' !in b;
    JoinThenSplit([a, b], ' ');
  }

  /** "ana maria" becomes "Ana Maria". */
  lemma AnaMariaName()
    ensures CheckName("ana maria") == Pass("Ana Maria")
  {
    var ws := ["ana", "maria"];
    var cs := CapitalizeAll(ws);
    assert cs == ["Ana", "Maria"] by { CapAna(); CapMaria(); }
    assert Join(cs, ' ') == "Ana Maria";
    SplitAna();
    assert AllNonEmpty(ws);
  }

  /** A submission with the given avatar, name and email, password "abcdef"
      and the techs Go (80) and Rust (60). */
  function SampleSubmission(avatar: seq<File>, name: string, email: string): RawUser {
    RawUser(avatar, name, email, "abcdef", [Tech("Go", 80.0), Tech("Rust", 60.0)])
  }

  /** Both sample techs have a title and a knowledge within range. */
  lemma TechsElementsOk()
    ensures var ts := [Tech("Go", 80.0), Tech("Rust", 60.0)];
      forall i :: 0 <= i < |ts| ==> CheckTitle(ts[i].title) == None && CheckKnowledge(ts[i].knowledge) == None
  {
  }

  /** The sample array has 2 entries, one above 70. */
  lemma TechsOk()
    ensures CheckTechs([Tech("Go", 80.0), Tech("Rust", 60.0)]) == None
  {
    var ts := [Tech("Go", 80.0), Tech("Rust", 60.0)];
    assert ts[0].knowledge > 70.0;
  }

  /** When password and techs pass and neither chain throws, the rejection
      names the one failing path among avatar, name and email. */
  lemma RejectedOnlyAt(av: Checked<File>, name: Checked<string>, raw: RawUser, isEmail: string -> bool, q: Path)
    requires CheckPassword(raw.password) == None && CheckTechs(raw.techs) == None
    requires forall i :: 0 <= i < |raw.techs| ==>
        CheckTitle(raw.techs[i].title) == None && CheckKnowledge(raw.techs[i].knowledge) == None
    requires !av.Crash? && !name.Crash?
    requires q == AvatarPath || q == NamePath || q == EmailPath
    requires IssueAt(av, name, raw, isEmail, q).Some?
    requires q != AvatarPath ==> av.Pass?
    requires q != NamePath ==> name.Pass?
    requires q != EmailPath ==> CheckEmail(raw.email, isEmail) == None
    ensures Assemble(av, name, raw, isEmail) == Rejected(map[q := IssueAt(av, name, raw, isEmail, q).value])
  {
    assert q in PathsOf(|raw.techs|);
    forall p | p in PathsOf(|raw.techs|) && p != q ensures IssueAt(av, name, raw, isEmail, p).None? {
      if p.TitlePath? || p.KnowledgePath? {
        assert p.index < |raw.techs|;
      }
    }
    OnlyErrorAt(av, name, raw, isEmail, q);
  }

  /** With a 1 MiB jpeg, a name the name chain accepts and a well-formed
      address in the required domain, the sample is accepted with the
      transformed name. */
  lemma SampleAccepted(isEmail: string -> bool, name: string, title: string, email: string)
    requires CheckName(name) == Pass(title)
    requires |email| > 0 && isEmail(email) && EndsWith(email, RequiredSuffix)
    ensures var jpeg := File("ana.jpg", 1024 * 1024, "image/jpeg");
      Validate(SampleSubmission([jpeg], name, email), isEmail)
        == Parsed(User(jpeg, title, email, "abcdef", [Tech("Go", 80.0), Tech("Rust", 60.0)]))
  {
    var jpeg := File("ana.jpg", 1024 * 1024, "image/jpeg");
    var raw := SampleSubmission([jpeg], name, email);
    assert CheckAvatar(raw.avatar) == Pass(jpeg);
    TechsElementsOk();
    TechsOk();
  }

  /** With a 1 MiB jpeg and a well-formed address in another domain, the
      sample is rejected on the email path alone. */
  lemma SampleOtherDomain(isEmail: string -> bool, name: string, title: string, email: string)
    requires CheckName(name) == Pass(title)
    requires |email| > 0 && isEmail(email) && !EndsWith(email, RequiredSuffix)
    ensures var jpeg := File("ana.jpg", 1024 * 1024, "image/jpeg");
      Validate(SampleSubmission([jpeg], name, email), isEmail) == Rejected(map[EmailPath := EmailNotAllowed])
  {
    var jpeg := File("ana.jpg", 1024 * 1024, "image/jpeg");
    var raw := SampleSubmission([jpeg], name, email);
    var av := CheckAvatar(raw.avatar);
    assert av == Pass(jpeg);
    TechsElementsOk();
    TechsOk();
    RejectedOnlyAt(av, CheckName(name), raw, isEmail, EmailPath);
  }

  /** A 6 MiB png is rejected on the avatar path alone. */
  lemma SampleLargePng(isEmail: string -> bool, name: string, title: string, email: string)
    requires CheckName(name) == Pass(title)
    requires |email| > 0 && isEmail(email) && EndsWith(email, RequiredSuffix)
    ensures var png := File("ana.png", 6 * 1024 * 1024, "image/png");
      Validate(SampleSubmission([png], name, email), isEmail) == Rejected(map[AvatarPath := AvatarTooLarge])
  {
    var png := File("ana.png", 6 * 1024 * 1024, "image/png");
    var raw := SampleSubmission([png], name, email);
    var av := CheckAvatar(raw.avatar);
    assert av == Fail(AvatarTooLarge);
    TechsElementsOk();
    TechsOk();
    RejectedOnlyAt(av, CheckName(name), raw, isEmail, AvatarPath);
  }

  /** Without a file, the schema as it runs throws, where the presence check
      would have reported the missing avatar alone. */
  lemma SampleWithoutAvatar(isEmail: string -> bool, name: string, title: string, email: string)
    requires CheckName(name) == Pass(title)
    requires |email| > 0 && isEmail(email) && EndsWith(email, RequiredSuffix)
    ensures ValidateAsWritten(SampleSubmission([], name, email), isEmail) == Crashed
    ensures Validate(SampleSubmission([], name, email), isEmail) == Rejected(map[AvatarPath := AvatarRequired])
  {
    var raw := SampleSubmission([], name, email);
    var av := CheckAvatar(raw.avatar);
    assert av == Fail(AvatarRequired);
    TechsElementsOk();
    TechsOk();
    RejectedOnlyAt(av, CheckName(name), raw, isEmail, AvatarPath);
  }

  /** An empty name with every other field valid is rejected with the name
      message alone. */
  lemma SampleEmptyName(isEmail: string -> bool, email: string)
    requires |email| > 0 && isEmail(email) && EndsWith(email, RequiredSuffix)
    ensures var jpeg := File("ana.jpg", 1024 * 1024, "image/jpeg");
      Validate(SampleSubmission([jpeg], "", email), isEmail) == Rejected(map[NamePath := NameRequired])
  {
    var jpeg := File("ana.jpg", 1024 * 1024, "image/jpeg");
    var raw := SampleSubmission([jpeg], "", email);
    var av := CheckAvatar(raw.avatar);
    assert av == Pass(jpeg);
    assert CheckName("") == Fail(NameRequired);
    TechsElementsOk();
    TechsOk();
    RejectedOnlyAt(av, CheckName(raw.name), raw, isEmail, NamePath);
  }

  /** The sample name: "ana maria" is accepted as "Ana Maria", so every
      sample above applies to it. */
  lemma AnaMariaSample(isEmail: string -> bool, email: string)
    requires |email| > 0 && isEmail(email) && EndsWith(email, RequiredSuffix)
    ensures var jpeg := File("ana.jpg", 1024 * 1024, "image/jpeg");
      Validate(SampleSubmission([jpeg], "ana maria", email), isEmail)
        == Parsed(User(jpeg, "Ana Maria", email, "abcdef", [Tech("Go", 80.0), Tech("Rust", 60.0)]))
  {
    AnaMariaName();
    SampleAccepted(isEmail, "ana maria", "Ana Maria", email);
  }
}
