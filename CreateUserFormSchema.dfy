/**
 * `createUserFormSchema` of the older form: the same name, email, password
 * and techs rules as `createUserSchema`, and an avatar rule that takes the
 * first file and checks only its size.
 */
module CreateUserFormSchema {
  import opened JsText
  import opened UserRules
  import CreateUserSchema

  /** The avatar chain: the list becomes its first item, which must be at most
      5 MiB. There is no presence or type check; with no file the size check
      reads `size` of `null` and throws. */
  function CheckAvatar(files: seq<File>): (r: Checked<File>)
    ensures r == Crash <==> |files| == 0
    ensures r == Fail(AvatarOverFiveMb) <==> |files| > 0 && files[0].size > 5242880
    ensures r.Pass? <==> |files| > 0 && files[0].size <= 5242880
    ensures r.Pass? ==> r.value == files[0]
  {
    if |files| == 0 then Crash
    else if files[0].size > CreateUserSchema.MaxFileSize then Fail(AvatarOverFiveMb)
    else Pass(files[0])
  }

  /** The schema: it throws exactly when there is no file or the name
      transform throws. */
  function Validate(raw: RawUser, isEmail: string -> bool): (o: Outcome)
    ensures o == Crashed <==> |raw.avatar| == 0 || CheckName(raw.name) == Crash
  {
    Assemble(CheckAvatar(raw.avatar), CheckName(raw.name), raw, isEmail)
  }

  /** An accepted submission had a first file of at most 5 MiB, of any type,
      and that file is the user's avatar. */
  lemma ValidatedUser(raw: RawUser, isEmail: string -> bool, u: User)
    requires Validate(raw, isEmail) == Parsed(u)
    ensures |raw.avatar| > 0 && u.avatar == raw.avatar[0] && u.avatar.size <= 5242880
    ensures TitleCase(raw.name) == Some(u.name)
    ensures u.email == raw.email && u.password == raw.password && u.techs == raw.techs
    ensures ValidUser(u, isEmail)
  {
    ParsedUserValid(CheckAvatar(raw.avatar), raw, isEmail, u);
  }

  /** A small file of any type passes this avatar rule and fails the newer one. */
  lemma AnyTypeAccepted(f: File)
    requires f.size <= 5242880 && f.mimeType !in CreateUserSchema.AcceptedImageTypes
    ensures CheckAvatar([f]) == Pass(f)
    ensures CreateUserSchema.CheckAvatar([f]) == Fail(AvatarBadType)
  {
  }

  /** The two schemas agree on every path but the avatar: the same errors
      elsewhere, the same crashes from the name (and, as the newer schema
      runs, the same crashes altogether), every user the newer schema
      accepts is accepted here unchanged, and a user accepted here alone is
      refused there on the avatar path only. */
  lemma SchemasAgreeExceptAvatar(raw: RawUser, isEmail: string -> bool)
    ensures var a := CreateUserSchema.CheckAvatar(raw.avatar);
      Errors(a, CheckName(raw.name), raw, isEmail) - {AvatarPath} == Errors(CheckAvatar(raw.avatar), CheckName(raw.name), raw, isEmail) - {AvatarPath}
    ensures CheckName(raw.name) == Crash
        ==> CreateUserSchema.Validate(raw, isEmail) == Crashed && Validate(raw, isEmail) == Crashed
    ensures CreateUserSchema.ValidateAsWritten(raw, isEmail) == Crashed <==> Validate(raw, isEmail) == Crashed
    ensures CreateUserSchema.Validate(raw, isEmail).Parsed?
        ==> Validate(raw, isEmail) == CreateUserSchema.Validate(raw, isEmail)
    ensures Validate(raw, isEmail).Parsed? && !CreateUserSchema.Validate(raw, isEmail).Parsed?
        ==> && CreateUserSchema.Validate(raw, isEmail).Rejected?
            && CreateUserSchema.Validate(raw, isEmail).errors == map[AvatarPath := AvatarBadType]
  {
    var a := CreateUserSchema.CheckAvatar(raw.avatar);
    var b := CheckAvatar(raw.avatar);
    var name := CheckName(raw.name);
    ErrorsOffAvatar(a, b, name, raw, isEmail);
    if Validate(raw, isEmail).Parsed? && !CreateUserSchema.Validate(raw, isEmail).Parsed? {
      assert FieldsPass(name, raw, isEmail);
      assert a == Fail(AvatarBadType);
      OnlyAvatarFails(a, name, raw, isEmail);
    }
  }
}
