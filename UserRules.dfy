/**
 * The registration rules that both schemas declare identically (name, email,
 * password, techs), and the way a zod object combines its fields' results into
 * one outcome: the parsed user, a map from field path to the first failing
 * check's issue, or a thrown exception.
 */
module UserRules {
  import opened JsText

  datatype Option<T> = None | Some(value: T)

  /** Every check of both schemas, one constructor per message. */
  datatype Issue =
    | NameRequired
    | EmailRequired
    | EmailFormat
    | EmailNotAllowed
    | PasswordTooShort
    | TitleRequired
    | KnowledgeTooSmall
    | KnowledgeTooLarge
    | TooFewTechs
    | StillLearning
    | AvatarRequired
    | AvatarTooLarge
    | AvatarBadType
    | AvatarOverFiveMb

  /** The text shown under the field. The two knowledge messages are zod's
      defaults for `min(1)` and `max(100)`, since the schemas give none. */
  function Message(i: Issue): string {
    match i
    case NameRequired => "Nome obrigatório."
    case EmailRequired => "E-mail obrigatório."
    case EmailFormat => "Formato de e-mail inválido."
    case EmailNotAllowed => "O e-mail precisa ser do email."
    case PasswordTooShort => "A senha precisa de no mínimo 6 caracteres."
    case TitleRequired => "Título obrigatório."
    case KnowledgeTooSmall => "Number must be greater than or equal to 1"
    case KnowledgeTooLarge => "Number must be less than or equal to 100"
    case TooFewTechs => "Insira ao menos 2 techs."
    case StillLearning => "Vocẽ ainda está aprendendo."
    case AvatarRequired => "A imagem de perfil é obrigatória"
    case AvatarTooLarge => "Tamanho máximo de 5MB"
    case AvatarBadType => "Formato de imagem inválido"
    case AvatarOverFiveMb => "O arquivo precisa ter no máximo 5Mb."
  }

  /** A browser `File`, reduced to what the rules look at. */
  datatype File = File(name: string, size: nat, mimeType: string)

  /** One entry of the techs array; `knowledge` is the value after `z.coerce.number`. */
  datatype Tech = Tech(title: string, knowledge: real)

  /** What the form collects; `avatar` is the `FileList` of the file input. */
  datatype RawUser = RawUser(avatar: seq<File>, name: string, email: string, password: string, techs: seq<Tech>)

  /** What a successful parse yields. */
  datatype User = User(avatar: File, name: string, email: string, password: string, techs: seq<Tech>)

  /** Where an issue is reported. */
  datatype Path = AvatarPath | NamePath | EmailPath | PasswordPath | TechsPath | TitlePath(index: nat) | KnowledgePath(index: nat)

  /** The result of one field's chain: its output value, the first failing
      check, or an exception thrown by a refinement or transform. */
  datatype Checked<T> = Pass(value: T) | Fail(issue: Issue) | Crash

  /** The result of parsing the whole object. */
  datatype Outcome = Parsed(user: User) | Rejected(errors: map<Path, Issue>) | Crashed

  // ---------------------------------------------------------------- name

  /** `word[0].toLocaleUpperCase().concat(word.substring(1))` for a non-empty word. */
  function Capitalize(w: string): (r: string)
    requires |w| > 0
    ensures |r| == |w| && r[1..] == w[1..]
  {
    [ToUpper(w[0])] + w[1..]
  }

  /** Every word capitalized, in order. */
  function CapitalizeAll(ws: seq<string>): (r: seq<string>)
    requires AllNonEmpty(ws)
    ensures |r| == |ws|
  {
    seq(|ws|, i requires 0 <= i < |ws| => Capitalize(ws[i]))
  }

  /** The name transform: trim, split on " ", capitalize each word, join with " ".
      `None` when some word is empty, where `word[0]` is undefined and the
      transform throws: exactly when the trimmed name is empty or holds two
      spaces in a row. */
  function TitleCase(name: string): (r: Option<string>)
    ensures r.Some? <==> Trim(name) != [] && NoAdjacent(Trim(name), ' ')
  {
    var words := Split(Trim(name), ' ');
    SplitPiecesNonEmpty(Trim(name), ' ');
    if AllNonEmpty(words) then Some(Join(CapitalizeAll(words), ' ')) else None
  }

  /** The name chain: `nonempty` on the raw string, then the transform. The
      only issue it reports is the empty name; it throws exactly when a
      non-empty name has no transform. */
  function CheckName(name: string): (r: Checked<string>)
    ensures r.Fail? <==> |name| == 0
    ensures r.Fail? ==> r.issue == NameRequired
    ensures r == Crash <==> |name| > 0 && TitleCase(name) == None
    ensures r.Pass? ==> TitleCase(name) == Some(r.value)
  {
    if |name| == 0 then Fail(NameRequired)
    else match TitleCase(name)
      case Some(r) => Pass(r)
      case None => Crash
  }

  /** The name is refused exactly when it is empty; a non-empty name makes the
      transform throw exactly when its trimmed text is empty (whitespace only)
      or holds two spaces in a row. */
  lemma CheckNameOutcome(name: string)
    ensures CheckName(name) == Fail(NameRequired) <==> |name| == 0
    ensures CheckName(name) == Crash
        <==> |name| > 0 && (Trim(name) == [] || !NoAdjacent(Trim(name), ' '))
    ensures CheckName(name).Pass? <==> |name| > 0 && Trim(name) != [] && NoAdjacent(Trim(name), ' ')
    ensures CheckName(name).Pass? ==> TitleCase(name) == Some(CheckName(name).value)
  {
    SplitPiecesNonEmpty(Trim(name), ' ');
  }

  /** The transform keeps the number of words and every non-initial character,
      and upper-cases the first character of each word. */
  lemma TitleCaseWords(name: string, r: string)
    requires TitleCase(name) == Some(r)
    ensures Split(r, ' ') == CapitalizeAll(Split(Trim(name), ' '))
    ensures var ws := Split(Trim(name), ' ');
      var rs := Split(r, ' ');
      && |rs| == |ws|
      && forall i :: 0 <= i < |ws| ==>
          && |rs[i]| == |ws[i]| > 0
          && rs[i][0] == ToUpper(ws[i][0])
          && rs[i][1..] == ws[i][1..]
  {
    var ws := Split(Trim(name), ' ');
    var cs := CapitalizeAll(ws);
    forall i | 0 <= i < |cs| ensures ' ' !in cs[i] {
      assert cs[i] == [ToUpper(ws[i][0])] + ws[i][1..];
    }
    JoinThenSplit(cs, ' ');
  }

  /** Capitalizing the words of a string that neither starts nor ends with
      whitespace gives a non-empty string that neither starts nor ends with it. */
  lemma CapitalizedJoinTrimmed(ws: seq<string>, t: string)
    requires |ws| >= 1 && AllNonEmpty(ws)
    requires Join(ws, ' ') == t
    requires !IsWhitespace(t[0]) && !IsWhitespace(t[|t| - 1])
    ensures var r := Join(CapitalizeAll(ws), ' ');
      |r| > 0 && !IsWhitespace(r[0]) && !IsWhitespace(r[|r| - 1])
  {
    var cs := CapitalizeAll(ws);
    var n := |ws| - 1;
    JoinFirstLast(ws, ' ');
    JoinFirstLast(cs, ' ');
    ToUpperFacts(ws[0][0]);
    ToUpperFacts(ws[n][|ws[n]| - 1]);
    assert cs[n] == [ToUpper(ws[n][0])] + ws[n][1..];
  }

  /** The transform's output is non-empty and is its own trim. */
  lemma TitleCaseTrimmed(name: string, r: string)
    requires TitleCase(name) == Some(r)
    ensures |r| > 0 && Trim(r) == r
  {
    var t := Trim(name);
    var ws := Split(t, ' ');
    assert AllNonEmpty(ws) && r == Join(CapitalizeAll(ws), ' ');
    assert |t| > 0 && !IsWhitespace(t[0]) && !IsWhitespace(t[|t| - 1]);
    SplitThenJoin(t, ' ');
    CapitalizedJoinTrimmed(ws, t);
    TrimOfTrimmed(r);
  }

  /** Capitalizing words a second time changes nothing. */
  lemma CapitalizeAllTwice(ws: seq<string>)
    requires AllNonEmpty(ws)
    ensures AllNonEmpty(CapitalizeAll(ws))
    ensures CapitalizeAll(CapitalizeAll(ws)) == CapitalizeAll(ws)
  {
    var cs := CapitalizeAll(ws);
    forall i | 0 <= i < |cs| ensures Capitalize(cs[i]) == cs[i] {
      ToUpperFacts(ws[i][0]);
    }
  }

  /** Applying the transform to its own output changes nothing, and that output
      passes the name chain again. */
  lemma TitleCaseIdempotent(name: string, r: string)
    requires TitleCase(name) == Some(r)
    ensures TitleCase(r) == Some(r)
    ensures CheckName(r) == Pass(r)
  {
    var ws := Split(Trim(name), ' ');
    var cs := CapitalizeAll(ws);
    TitleCaseWords(name, r);
    TitleCaseTrimmed(name, r);
    CapitalizeAllTwice(ws);
    assert Split(Trim(r), ' ') == cs;
  }

  // ---------------------------------------------------------------- email, password

  const RequiredSuffix: string := "@email.com"

  /** The email chain: non-empty, then the format check `isEmail` (zod's
      `.email()`), then the literal suffix; the first failing check is reported. */
  function CheckEmail(email: string, isEmail: string -> bool): (r: Option<Issue>)
    ensures r == None <==> |email| > 0 && isEmail(email) && EndsWith(email, RequiredSuffix)
    ensures !EndsWith(email, RequiredSuffix) ==> r != None
    ensures r == Some(EmailRequired) <==> |email| == 0
    ensures r == Some(EmailFormat) <==> |email| > 0 && !isEmail(email)
    ensures r == Some(EmailNotAllowed) <==> |email| > 0 && isEmail(email) && !EndsWith(email, RequiredSuffix)
  {
    if |email| == 0 then Some(EmailRequired)
    else if !isEmail(email) then Some(EmailFormat)
    else if !EndsWith(email, RequiredSuffix) then Some(EmailNotAllowed)
    else None
  }

  const MinPasswordLength: nat := 6

  /** `min(6)` on the password. */
  function CheckPassword(password: string): (r: Option<Issue>)
    ensures r != None <==> |password| < 6
    ensures r == None || r == Some(PasswordTooShort)
  {
    if |password| < MinPasswordLength then Some(PasswordTooShort) else None
  }

  // ---------------------------------------------------------------- techs

  /** `nonempty` on a tech title (the raw string, not trimmed). */
  function CheckTitle(title: string): (r: Option<Issue>)
    ensures r != None <==> |title| == 0
    ensures r == None || r == Some(TitleRequired)
  {
    if |title| == 0 then Some(TitleRequired) else None
  }

  /** `min(1).max(100)` on the coerced knowledge: both bounds are inclusive. */
  function CheckKnowledge(k: real): (r: Option<Issue>)
    ensures r == None <==> 1.0 <= k <= 100.0
    ensures r == Some(KnowledgeTooSmall) <==> k < 1.0
    ensures r == Some(KnowledgeTooLarge) <==> k > 100.0
  {
    if k < 1.0 then Some(KnowledgeTooSmall)
    else if k > 100.0 then Some(KnowledgeTooLarge)
    else None
  }

  /** `techs.some(tech => tech.knowledge > 70)`. */
  predicate HasExpert(techs: seq<Tech>) {
    exists i :: 0 <= i < |techs| && techs[i].knowledge > 70.0
  }

  /** The array chain: `min(2)`, then the refinement asking for an entry above 70. */
  function CheckTechs(techs: seq<Tech>): (r: Option<Issue>)
    ensures r == Some(TooFewTechs) <==> |techs| < 2
    ensures r == Some(StillLearning) <==> |techs| >= 2 && !HasExpert(techs)
    ensures r == None <==> |techs| >= 2 && HasExpert(techs)
  {
    if |techs| < 2 then Some(TooFewTechs)
    else if !HasExpert(techs) then Some(StillLearning)
    else None
  }

  /** The entry `addNewTech` appends to the field array. */
  function NewTech(): (t: Tech)
    ensures CheckTitle(t.title) == Some(TitleRequired)
    ensures CheckKnowledge(t.knowledge) == None && t.knowledge <= 70.0
  {
    Tech("", 1.0)
  }

  /** A freshly added entry passes the range check, fails the title check, and
      never supplies the entry above 70 that the array needs. */
  lemma NewTechEntry(techs: seq<Tech>)
    ensures CheckKnowledge(NewTech().knowledge) == None
    ensures CheckTitle(NewTech().title) == Some(TitleRequired)
    ensures HasExpert(techs + [NewTech()]) <==> HasExpert(techs)
  {
    var ts := techs + [NewTech()];
    if HasExpert(ts) {
      var i :| 0 <= i < |ts| && ts[i].knowledge > 70.0;
      assert i < |techs| && techs[i] == ts[i];
    }
    if HasExpert(techs) {
      var i :| 0 <= i < |techs| && techs[i].knowledge > 70.0;
      assert ts[i] == techs[i];
    }
  }

  // ---------------------------------------------------------------- the object

  /** The paths a raw submission with `n` techs can report on. */
  function PathsOf(n: nat): set<Path> {
    {AvatarPath, NamePath, EmailPath, PasswordPath, TechsPath}
    + (set i: nat | i < n :: TitlePath(i))
    + (set i: nat | i < n :: KnowledgePath(i))
  }

  function IssueOf<T>(c: Checked<T>): Option<Issue> {
    if c.Fail? then Some(c.issue) else None
  }

  /** The first failing check on path `p`, given the results of the avatar
      chain and of the name chain (both may transform or throw). */
  function IssueAt(avatar: Checked<File>, name: Checked<string>, raw: RawUser, isEmail: string -> bool, p: Path): (r: Option<Issue>) {
    match p
    case AvatarPath => IssueOf(avatar)
    case NamePath => IssueOf(name)
    case EmailPath => CheckEmail(raw.email, isEmail)
    case PasswordPath => CheckPassword(raw.password)
    case TechsPath => CheckTechs(raw.techs)
    case TitlePath(i) => if i < |raw.techs| then CheckTitle(raw.techs[i].title) else None
    case KnowledgePath(i) => if i < |raw.techs| then CheckKnowledge(raw.techs[i].knowledge) else None
  }

  /** One issue per failing path, as the form's resolver reports them: only
      paths of the submission, and each field path exactly when its chain
      reports an issue. */
  function Errors(avatar: Checked<File>, name: Checked<string>, raw: RawUser, isEmail: string -> bool): (m: map<Path, Issue>)
    ensures m.Keys <= PathsOf(|raw.techs|)
    ensures AvatarPath in m <==> avatar.Fail?
    ensures NamePath in m <==> name.Fail?
    ensures EmailPath in m <==> CheckEmail(raw.email, isEmail) != None
    ensures PasswordPath in m <==> CheckPassword(raw.password) != None
    ensures TechsPath in m <==> CheckTechs(raw.techs) != None
  {
    var m := map p | p in PathsOf(|raw.techs|) && IssueAt(avatar, name, raw, isEmail, p).Some?
      :: IssueAt(avatar, name, raw, isEmail, p).value;
    assert {AvatarPath, NamePath, EmailPath, PasswordPath, TechsPath} <= PathsOf(|raw.techs|);
    m
  }

  /** Every rule outside the avatar passes. */
  predicate FieldsPass(name: Checked<string>, raw: RawUser, isEmail: string -> bool) {
    && name.Pass?
    && CheckEmail(raw.email, isEmail) == None
    && CheckPassword(raw.password) == None
    && CheckTechs(raw.techs) == None
    && forall i :: 0 <= i < |raw.techs| ==>
        CheckTitle(raw.techs[i].title) == None && CheckKnowledge(raw.techs[i].knowledge) == None
  }

  /** The object parse, given what the avatar chain and the name chain
      produced: every field is evaluated; an exception in any field escapes
      the parse; otherwise the user when nothing failed, else the errors. */
  function Assemble(avatar: Checked<File>, name: Checked<string>, raw: RawUser, isEmail: string -> bool): (o: Outcome)
    ensures o == Crashed <==> avatar.Crash? || name.Crash?
    ensures o.Parsed? <==> avatar.Pass? && FieldsPass(name, raw, isEmail)
    ensures o.Parsed? ==> o.user.avatar == avatar.value && o.user.name == name.value
    ensures o.Parsed? ==> o.user.email == raw.email && o.user.password == raw.password && o.user.techs == raw.techs
    ensures o.Rejected? ==> o.errors == Errors(avatar, name, raw, isEmail)
  {
    if avatar.Crash? || name.Crash? then Crashed
    else if avatar.Pass? && FieldsPass(name, raw, isEmail) then
      Parsed(User(avatar.value, name.value, raw.email, raw.password, raw.techs))
    else Rejected(Errors(avatar, name, raw, isEmail))
  }

  /** What every accepted user satisfies, whatever its avatar rule. */
  predicate ValidUser(u: User, isEmail: string -> bool) {
    && |u.name| > 0
    && TitleCase(u.name) == Some(u.name)
    && |u.email| > 0 && isEmail(u.email) && EndsWith(u.email, RequiredSuffix)
    && |u.password| >= 6
    && |u.techs| >= 2
    && HasExpert(u.techs)
    && forall i :: 0 <= i < |u.techs| ==>
        |u.techs[i].title| > 0 && 1.0 <= u.techs[i].knowledge <= 100.0
  }

  /** A parsed user is the two chains' outputs with the other fields
      unchanged, and those fields satisfy every rule. */
  lemma ParsedFields(avatar: Checked<File>, name: Checked<string>, raw: RawUser, isEmail: string -> bool, u: User)
    requires Assemble(avatar, name, raw, isEmail) == Parsed(u)
    ensures avatar == Pass(u.avatar) && name == Pass(u.name)
    ensures u.email == raw.email && u.password == raw.password && u.techs == raw.techs
    ensures |u.email| > 0 && isEmail(u.email) && EndsWith(u.email, RequiredSuffix)
    ensures |u.password| >= 6 && |u.techs| >= 2 && HasExpert(u.techs)
    ensures forall i :: 0 <= i < |u.techs| ==>
        |u.techs[i].title| > 0 && 1.0 <= u.techs[i].knowledge <= 100.0
  {
    assert FieldsPass(name, raw, isEmail);
    forall i | 0 <= i < |u.techs|
      ensures |u.techs[i].title| > 0 && 1.0 <= u.techs[i].knowledge <= 100.0
    {
      assert CheckTitle(raw.techs[i].title) == None;
      assert CheckKnowledge(raw.techs[i].knowledge) == None;
    }
  }

  /** With the name chain of both schemas, a parsed user carries the
      title-cased name and satisfies every rule. */
  lemma ParsedUserValid(avatar: Checked<File>, raw: RawUser, isEmail: string -> bool, u: User)
    requires Assemble(avatar, CheckName(raw.name), raw, isEmail) == Parsed(u)
    ensures avatar == Pass(u.avatar)
    ensures TitleCase(raw.name) == Some(u.name)
    ensures u.email == raw.email && u.password == raw.password && u.techs == raw.techs
    ensures ValidUser(u, isEmail)
  {
    ParsedFields(avatar, CheckName(raw.name), raw, isEmail, u);
    CheckNameOutcome(raw.name);
    TitleCaseIdempotent(raw.name, u.name);
  }

  /** The errors of a submission hold exactly its failing paths, with each
      path's first failing check. */
  lemma ErrorsAt(avatar: Checked<File>, name: Checked<string>, raw: RawUser, isEmail: string -> bool, p: Path)
    requires p in PathsOf(|raw.techs|)
    ensures p in Errors(avatar, name, raw, isEmail) <==> IssueAt(avatar, name, raw, isEmail, p).Some?
    ensures p in Errors(avatar, name, raw, isEmail) ==> Errors(avatar, name, raw, isEmail)[p] == IssueAt(avatar, name, raw, isEmail, p).value
  {
  }

  /** When a single path fails, the rejection names that path alone. */
  lemma OnlyErrorAt(avatar: Checked<File>, name: Checked<string>, raw: RawUser, isEmail: string -> bool, q: Path)
    requires q in PathsOf(|raw.techs|) && IssueAt(avatar, name, raw, isEmail, q).Some?
    requires forall p :: p in PathsOf(|raw.techs|) && p != q ==> IssueAt(avatar, name, raw, isEmail, p).None?
    requires !avatar.Crash? && !name.Crash?
    ensures Assemble(avatar, name, raw, isEmail) == Rejected(map[q := IssueAt(avatar, name, raw, isEmail, q).value])
  {
    var e := Errors(avatar, name, raw, isEmail);
    forall p ensures p in e <==> p == q {
      if p in PathsOf(|raw.techs|) { ErrorsAt(avatar, name, raw, isEmail, p); }
    }
    assert e.Keys == {q};
    ErrorsAt(avatar, name, raw, isEmail, q);
    assert e == map[q := IssueAt(avatar, name, raw, isEmail, q).value];
    assert !(avatar.Pass? && FieldsPass(name, raw, isEmail)) by {
      if q == AvatarPath { } else if q == NamePath { } else if q == EmailPath { }
      else if q == PasswordPath { } else if q == TechsPath { }
      else if q.TitlePath? { assert CheckTitle(raw.techs[q.index].title) != None; }
      else { assert CheckKnowledge(raw.techs[q.index].knowledge) != None; }
    }
  }

  /** When every rule outside the avatar passes and the avatar fails, the
      rejection holds the avatar path alone. */
  lemma OnlyAvatarFails(avatar: Checked<File>, name: Checked<string>, raw: RawUser, isEmail: string -> bool)
    requires avatar.Fail? && FieldsPass(name, raw, isEmail)
    ensures Assemble(avatar, name, raw, isEmail) == Rejected(map[AvatarPath := avatar.issue])
  {
    forall p | p in PathsOf(|raw.techs|) && p != AvatarPath ensures IssueAt(avatar, name, raw, isEmail, p).None? {
      if p.TitlePath? || p.KnowledgePath? {
        assert p.index < |raw.techs|;
      }
    }
    OnlyErrorAt(avatar, name, raw, isEmail, AvatarPath);
  }

  /** The path on which a submission that is not accepted fails first. */
  lemma FailingPath(avatar: Checked<File>, name: Checked<string>, raw: RawUser, isEmail: string -> bool) returns (p: Path)
    requires !avatar.Crash? && !name.Crash?
    requires !(avatar.Pass? && FieldsPass(name, raw, isEmail))
    ensures p in PathsOf(|raw.techs|) && IssueAt(avatar, name, raw, isEmail, p).Some?
  {
    if !avatar.Pass? {
      p := AvatarPath;
    } else if !name.Pass? {
      p := NamePath;
    } else if CheckEmail(raw.email, isEmail) != None {
      p := EmailPath;
    } else if CheckPassword(raw.password) != None {
      p := PasswordPath;
    } else if CheckTechs(raw.techs) != None {
      p := TechsPath;
    } else {
      var i :| 0 <= i < |raw.techs| && (CheckTitle(raw.techs[i].title) != None || CheckKnowledge(raw.techs[i].knowledge) != None);
      p := if CheckTitle(raw.techs[i].title) != None then TitlePath(i) else KnowledgePath(i);
      assert p in PathsOf(|raw.techs|);
    }
  }

  /** A rejection always names at least one failing path, and nothing outside
      the submission's paths. */
  lemma RejectedHasErrors(avatar: Checked<File>, name: Checked<string>, raw: RawUser, isEmail: string -> bool, errs: map<Path, Issue>)
    requires Assemble(avatar, name, raw, isEmail) == Rejected(errs)
    ensures errs == Errors(avatar, name, raw, isEmail)
    ensures errs != map[]
    ensures errs.Keys <= PathsOf(|raw.techs|)
  {
    var p := FailingPath(avatar, name, raw, isEmail);
    ErrorsAt(avatar, name, raw, isEmail, p);
    assert p in errs;
  }

  /** An array with fewer than 2 techs is reported on the array path whatever
      its entries hold. */
  lemma TooFewTechsReported(avatar: Checked<File>, name: Checked<string>, raw: RawUser, isEmail: string -> bool)
    requires Assemble(avatar, name, raw, isEmail) != Crashed
    requires |raw.techs| < 2
    ensures Assemble(avatar, name, raw, isEmail).Rejected?
    ensures Assemble(avatar, name, raw, isEmail).errors[TechsPath] == TooFewTechs
  {
    assert !FieldsPass(name, raw, isEmail);
    ErrorsAt(avatar, name, raw, isEmail, TechsPath);
  }

  /** At least 2 techs, none above 70: reported on the array path. */
  lemma NoExpertReported(avatar: Checked<File>, name: Checked<string>, raw: RawUser, isEmail: string -> bool)
    requires Assemble(avatar, name, raw, isEmail) != Crashed
    requires |raw.techs| >= 2
    requires forall i :: 0 <= i < |raw.techs| ==> raw.techs[i].knowledge <= 70.0
    ensures Assemble(avatar, name, raw, isEmail).Rejected?
    ensures Assemble(avatar, name, raw, isEmail).errors[TechsPath] == StillLearning
  {
    assert !HasExpert(raw.techs);
    assert CheckTechs(raw.techs) == Some(StillLearning);
    ErrorsAt(avatar, name, raw, isEmail, TechsPath);
  }

  /** A well-formed address outside the required domain is reported as such. */
  lemma EmailDomainReported(avatar: Checked<File>, name: Checked<string>, raw: RawUser, isEmail: string -> bool)
    requires Assemble(avatar, name, raw, isEmail) != Crashed
    requires |raw.email| > 0 && isEmail(raw.email) && !EndsWith(raw.email, RequiredSuffix)
    ensures Assemble(avatar, name, raw, isEmail).Rejected?
    ensures Assemble(avatar, name, raw, isEmail).errors[EmailPath] == EmailNotAllowed
  {
    assert CheckEmail(raw.email, isEmail) == Some(EmailNotAllowed);
    ErrorsAt(avatar, name, raw, isEmail, EmailPath);
  }

  /** After `addNewTech`, the submission cannot be accepted until the new
      entry's title is filled in: its title path is reported. */
  lemma AppendedTechBlocksSubmission(avatar: Checked<File>, name: Checked<string>, raw: RawUser, isEmail: string -> bool, techs: seq<Tech>)
    requires raw.techs == techs + [NewTech()]
    requires Assemble(avatar, name, raw, isEmail) != Crashed
    ensures Assemble(avatar, name, raw, isEmail).Rejected?
    ensures Assemble(avatar, name, raw, isEmail).errors[TitlePath(|techs|)] == TitleRequired
  {
    var p := TitlePath(|techs|);
    assert raw.techs[|techs|] == NewTech();
    assert p in PathsOf(|raw.techs|);
    assert CheckTitle(raw.techs[|techs|].title) == Some(TitleRequired);
    ErrorsAt(avatar, name, raw, isEmail, p);
  }

  /** Two avatar results leave every other path's errors unchanged. */
  lemma ErrorsOffAvatar(a1: Checked<File>, a2: Checked<File>, name: Checked<string>, raw: RawUser, isEmail: string -> bool)
    ensures Errors(a1, name, raw, isEmail) - {AvatarPath} == Errors(a2, name, raw, isEmail) - {AvatarPath}
  {
    var e1 := Errors(a1, name, raw, isEmail) - {AvatarPath};
    var e2 := Errors(a2, name, raw, isEmail) - {AvatarPath};
    forall p ensures p in e1 <==> p in e2 {
      if p != AvatarPath {
        assert IssueAt(a1, name, raw, isEmail, p) == IssueAt(a2, name, raw, isEmail, p);
      }
    }
    assert e1.Keys == e2.Keys;
  }
}
