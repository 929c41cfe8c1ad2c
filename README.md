# Registration validation of forms-avancados

This project models the rules that the forms-avancados app applies to a user
registration before the avatar is uploaded. There are two zod schemas:

- `createUserSchema`, used by the create-user form. It has the name, email,
  password and techs rules, and an avatar rule with three steps: a file is
  present, it is at most 5 MiB, and it has one of four image types. The same
  component also has a password-strength indicator and `addNewTech`.
- `createUserFormSchema`, used by the older form. It has the same name, email,
  password and techs rules, but its avatar rule only takes the first file and
  checks its size.

The project has four modules:

- `JsText` models the JavaScript string built-ins the rules call: `trim`,
  `split(" ")`, `join(" ")` and upper-casing of single characters in the name
  transform, and `endsWith` in the email rule.
- `UserRules` holds the rules the two schemas share. It also models how a zod
  object combines its fields:
  - each field's chain yields a value, a first failing check, or an exception;
  - the object yields the parsed user when nothing failed;
  - otherwise it yields a map from field path to that path's first failing check;
  - an exception in any field escapes the parse, because the resolver rethrows
    anything that is not a validation error.
- `CreateUserSchema` models the create-user form's schema and the strength test.
- `CreateUserFormSchema` models the older form's schema and compares it with
  the newer one.

The shared rules cite `CreateUserForm.tsx`. The same rules appear in
`Form.tsx`:

- name: lines 13-19
- email: lines 20-25
- password: lines 26-27
- techs: lines 28-35
- `addNewTech`: lines 56-58

### Behaviour of the code worth noting

- **Name, empty check.** The empty check runs on the raw, untrimmed string.
- **Name, whitespace-only input.** A whitespace-only name passes the empty
  check. The transform then throws, because `word[0]` is undefined on an empty
  piece.
- **Name, repeated spaces.** Two spaces in a row also make the transform throw.
- **Name, splitting.** Words are split on the space character `" "` only; a
  tab or a no-break space stays inside a word.
- **Tech titles.** A title is checked for emptiness without trimming, so a
  title of spaces passes.
- **Techs array checks.** The "at least 2 techs" and "one tech above 70" checks
  run even when some entries are invalid, because zod runs an array's own
  checks after its elements fail; both kinds of error are reported together.

## Model

| member | source | states |
|---|---|---|
| JsText.Trim | forms-avancados/src/components/CreateUserForm.tsx:18 | `trim` gives the slice of the name left after removing whitespace from both ends: everything cut off is whitespace, the result has no whitespace at either end, and it is empty exactly when the name is all whitespace |
| JsText.Split | forms-avancados/src/components/CreateUserForm.tsx:18 | `split(" ")` always yields at least one piece, and no piece contains a space |
| JsText.SplitThenJoin | forms-avancados/src/components/CreateUserForm.tsx:18-20 | joining the pieces of a split with the separator gives back the original string |
| JsText.JoinThenSplit | forms-avancados/src/components/CreateUserForm.tsx:18-20 | splitting a join of space-free pieces gives back exactly those pieces |
| JsText.SplitPiecesNonEmpty | forms-avancados/src/components/CreateUserForm.tsx:18-19 | every piece is non-empty (so `word[0]` is defined) exactly when the string is non-empty, does not start or end with a space, and has no two spaces in a row |
| JsText.Join | forms-avancados/src/components/CreateUserForm.tsx:20 | `join(" ")` of no words is empty; otherwise it starts with the first word, followed by the separator when there are more words |
| JsText.EndsWith | forms-avancados/src/components/CreateUserForm.tsx:26 | `endsWith` holds exactly when the address is some string followed by the suffix |
| JsText.ToUpper | forms-avancados/src/components/CreateUserForm.tsx:19 | a lower-case ASCII or Latin-1 letter with a one-character upper case (a-z, à-þ except ÷) becomes that upper-case letter; every other character is unchanged |
| UserRules.TitleCase | forms-avancados/src/components/CreateUserForm.tsx:17-21 | the transform is defined (no `word[0]` of an empty piece) exactly when the trimmed name is non-empty and has no two spaces in a row |
| UserRules.CheckName | forms-avancados/src/components/CreateUserForm.tsx:15-21 | the name chain reports only 'Nome obrigatório.', exactly for the empty name; it throws exactly when a non-empty name has no transform; otherwise it yields the transform's output |
| UserRules.CheckNameOutcome | forms-avancados/src/components/CreateUserForm.tsx:15-21 | 'Nome obrigatório.' is reported exactly for the empty raw name; a non-empty name makes the transform throw exactly when its trimmed text is empty or has two spaces in a row; otherwise the chain yields the transformed name |
| UserRules.TitleCaseWords | forms-avancados/src/components/CreateUserForm.tsx:17-21 | the output has the same number of words as the trimmed input; each word has the same length and tail, and its first character is upper-cased |
| UserRules.TitleCaseTrimmed | forms-avancados/src/components/CreateUserForm.tsx:18-20 | the transformed name is non-empty and is its own trim |
| UserRules.TitleCaseIdempotent | forms-avancados/src/components/CreateUserForm.tsx:15-21 | applying the transform to its own output changes nothing, and that output passes the name chain again |
| UserRules.CheckEmail | forms-avancados/src/components/CreateUserForm.tsx:22-27 | the email checks run in the order empty, format, suffix: 'E-mail obrigatório.' exactly for the empty address, 'Formato de e-mail inválido.' exactly for a non-empty ill-formed one, 'O e-mail precisa ser do email.' exactly for a well-formed one with another ending; accepted exactly when non-empty, well-formed and ending with "@email.com" |
| UserRules.CheckPassword | forms-avancados/src/components/CreateUserForm.tsx:28-29 | the password is refused, with the min-6 message, exactly when it has fewer than 6 characters |
| UserRules.CheckTitle | forms-avancados/src/components/CreateUserForm.tsx:31 | a tech title is refused exactly when it is empty |
| UserRules.CheckKnowledge | forms-avancados/src/components/CreateUserForm.tsx:32 | knowledge is accepted exactly when 1 <= k <= 100 (both ends inclusive); it is reported too small below 1 and too large above 100 |
| UserRules.CheckTechs | forms-avancados/src/components/CreateUserForm.tsx:34-37 | 'Insira ao menos 2 techs.' exactly when there are fewer than 2 entries; 'Vocẽ ainda está aprendendo.' exactly when there are at least 2 entries and none is above 70; accepted otherwise |
| UserRules.NewTech | forms-avancados/src/components/CreateUserForm.tsx:72-74 | the entry `addNewTech` appends fails the title check, passes the range check, and is not above 70 |
| UserRules.NewTechEntry | forms-avancados/src/components/CreateUserForm.tsx:72-74 | the entry `addNewTech` appends passes the range check, fails the title check, and never adds an entry above 70 |
| UserRules.Errors | forms-avancados/src/components/CreateUserForm.tsx:14-47 | the error map holds only paths of the submission, and each field path exactly when that field's chain reports an issue |
| UserRules.Assemble | forms-avancados/src/components/CreateUserForm.tsx:14-47 | the object parse throws exactly when the avatar chain or the name chain throws; it yields a user exactly when the avatar passes and every other rule passes, and that user is the chains' outputs with the other fields unchanged; otherwise it yields the error map |
| UserRules.ParsedFields | forms-avancados/src/components/CreateUserForm.tsx:14-47 | a parsed user is the avatar chain's and name chain's output, with email, password and techs unchanged; every field rule holds on it |
| UserRules.ParsedUserValid | forms-avancados/src/components/CreateUserForm.tsx:14-47 | a parsed user carries the title-cased name and satisfies every rule, including the name transform being a fixed point |
| UserRules.OnlyErrorAt | forms-avancados/src/components/CreateUserForm.tsx:14-47 | when a single path fails and neither chain throws, the rejection holds that one path and its issue |
| UserRules.OnlyAvatarFails | forms-avancados/src/components/CreateUserForm.tsx:14-47 | when every rule outside the avatar passes and the avatar fails, the rejection holds the avatar path alone |
| UserRules.RejectedHasErrors | forms-avancados/src/components/CreateUserForm.tsx:14-47 | a rejection always names at least one path, and only paths of the submission |
| UserRules.TooFewTechsReported | forms-avancados/src/components/CreateUserForm.tsx:30-34 | an array with fewer than 2 entries is reported on the array path, whatever its entries hold |
| UserRules.NoExpertReported | forms-avancados/src/components/CreateUserForm.tsx:35-37 | at least 2 entries, none above 70: the array path reports 'Vocẽ ainda está aprendendo.' |
| UserRules.EmailDomainReported | forms-avancados/src/components/CreateUserForm.tsx:25-27 | a well-formed address outside "@email.com" is reported with the domain message |
| UserRules.AppendedTechBlocksSubmission | forms-avancados/src/components/CreateUserForm.tsx:72-74 | after `addNewTech`, the submission is rejected and the new entry's title path reports 'Título obrigatório.' |
| UserRules.ErrorsOffAvatar | forms-avancados/src/components/CreateUserForm.tsx:14-47 | the avatar rule does not influence the errors on any other path |
| CreateUserSchema.CheckAvatar | forms-avancados/src/components/CreateUserForm.tsx:38-46 | presence, then size <= 5242880 (5 MiB, inclusive), then one of the four image types, each with its own message; on success the output is the first file, unchanged |
| CreateUserSchema.AvatarAsWritten | forms-avancados/src/components/CreateUserForm.tsx:38-46 | as the chain runs, an empty file list throws; any other list gives the same result as the chain with its presence check in effect |
| CreateUserSchema.Validate | forms-avancados/src/components/CreateUserForm.tsx:14-47 | with the presence check in effect, the schema throws exactly when the name transform throws |
| CreateUserSchema.ValidateAsWritten | forms-avancados/src/components/CreateUserForm.tsx:14-47 | as written, the schema throws exactly when there is no file or the name transform throws; with a file it agrees with the schema whose presence check is in effect |
| CreateUserSchema.ValidatedUser | forms-avancados/src/components/CreateUserForm.tsx:11-47 | an accepted registration has a first file of at most 5 MiB and an accepted type, and that file is the avatar; every other rule holds |
| CreateUserSchema.MissingAvatarReported | forms-avancados/src/components/CreateUserForm.tsx:39 | with the presence check in effect, a missing file is reported as 'A imagem de perfil é obrigatória' |
| CreateUserSchema.PresenceMessageUnreachable | forms-avancados/src/components/CreateUserForm.tsx:39-40 | as written, a missing file makes the parse throw, and the presence message is never reported |
| CreateUserSchema.IsPasswordStrong | forms-avancados/src/components/CreateUserForm.tsx:65 | `RegExp.test` of the unanchored pattern: at some position all four lookaheads find their class and eight characters other than line terminators follow |
| CreateUserSchema.StrongIsAccepted | forms-avancados/src/components/CreateUserForm.tsx:65 | a password marked strong has a lower-case letter, an upper-case letter, a digit, a symbol and at least 8 characters, so it also passes `min(6)` |
| CreateUserSchema.StrongIff | forms-avancados/src/components/CreateUserForm.tsx:65 | on a single-line password, the indicator is strong exactly when the password holds all four classes and has at least 8 characters |
| CreateUserSchema.AnaMariaName | forms-avancados/src/components/CreateUserForm.tsx:17-21 | the name "ana maria" becomes "Ana Maria" |
| CreateUserSchema.SampleAccepted | forms-avancados/src/components/CreateUserForm.tsx:14-47 | with a 1 MiB jpeg, an accepted name, a well-formed "@email.com" address, a 6-character password and two techs (one above 70), the schema parses to exactly the expected user |
| CreateUserSchema.SampleOtherDomain | forms-avancados/src/components/CreateUserForm.tsx:25-27 | the same submission at another domain is rejected with the domain message alone |
| CreateUserSchema.SampleLargePng | forms-avancados/src/components/CreateUserForm.tsx:40 | the same submission with a 6 MiB png is rejected with 'Tamanho máximo de 5MB' alone |
| CreateUserSchema.SampleWithoutAvatar | forms-avancados/src/components/CreateUserForm.tsx:38-40 | the same submission without a file throws as written, and would be rejected with the presence message alone once the presence check is in effect |
| CreateUserSchema.SampleEmptyName | forms-avancados/src/components/CreateUserForm.tsx:16 | the sample with an empty name and every other field valid is rejected with 'Nome obrigatório.' alone |
| CreateUserSchema.AnaMariaSample | forms-avancados/src/components/CreateUserForm.tsx:14-47 | the sample named "ana maria" is accepted as "Ana Maria" |
| CreateUserFormSchema.CheckAvatar | forms-avancados/src/components/Form.tsx:10-12 | the list becomes its first file, which must be at most 5242880 bytes ('O arquivo precisa ter no máximo 5Mb.'); there is no type check; an empty list throws |
| CreateUserFormSchema.Validate | forms-avancados/src/components/Form.tsx:9-36 | the schema throws exactly when there is no file or the name transform throws |
| CreateUserFormSchema.ValidatedUser | forms-avancados/src/components/Form.tsx:9-36 | an accepted registration has a first file of at most 5 MiB of any type, and that file is the avatar; every other rule holds |
| CreateUserFormSchema.AnyTypeAccepted | forms-avancados/src/components/Form.tsx:10-12 | a small file of a type outside the four image types passes this avatar rule and fails the newer one |
| CreateUserFormSchema.SchemasAgreeExceptAvatar | forms-avancados/src/components/Form.tsx:9-36 | the two schemas report the same errors on every path except the avatar; a name crash makes both throw; as the newer schema runs, both throw on exactly the same submissions; whatever the newer schema accepts, the older one accepts unchanged; a registration only the older one accepts is refused by the newer one with 'Formato de imagem inválido' alone |

## Left out

- The React rendering and hooks are not modelled: `useForm`, `useFieldArray` and its `remove`, `watch`, `useState` and the markup. `Form/Input.tsx` and `app/page.tsx` are pure UI.
- The upload of the avatar to object storage after a successful parse is not modelled (`CreateUserForm.tsx:76-88`, `Form.tsx:60-64`). It is network I/O.
- zod's `.email()` format check is the parameter `isEmail`. Its regular expression is not modelled.
- `z.coerce.number` is not modelled. Knowledge is the already-coerced number, as a `real`. NaN, Infinity and non-numeric input are left out.
- JsText.ToUpper: `toLocaleUpperCase` is modelled only for the ASCII and Latin-1 letters whose upper case is one Latin-1 character. Other scripts (for example ÿ, µ, Greek or Cyrillic), locale-dependent mappings and mappings that turn one character into several (ß to SS) are left out.
- Strings are sequences of Unicode scalar values. JavaScript counts UTF-16 code units, so `nonempty`, `min(6)` and `.{8,}` can differ from the model on characters outside the Basic Multilingual Plane.
- `z.instanceof(FileList)` failing on a value that is not a file list is not modelled. The avatar is always a list of files.
- Only the first failing check per path is reported. zod can collect several issues on one path, but the form shows one.
- The two knowledge messages in `Message` are zod's default texts. The schemas give none.
- StrongIff: stated only for passwords without line terminators (LF, CR, U+2028, U+2029). The pattern's `.{8,}` and `.*` do not cross them, so on a password that holds one the indicator also depends on where that character stands, and no condition on character classes and length alone decides it. StrongIsAccepted holds for every password.

## Findings

| source | as written | input that shows it | evidently intended | confidence | as-written member | corrected member |
|---|---|---|---|---|---|---|
| forms-avancados/src/components/CreateUserForm.tsx:39-40 | The size refinement still runs after the presence refinement has failed. It reads `size` of `null` and throws, so the parse throws instead of reporting a message. | an empty file list, with every other field valid | report 'A imagem de perfil é obrigatória' on the avatar path | medium: relies on zod running a refinement after an earlier one failed; not executed | CreateUserSchema.PresenceMessageUnreachable | CreateUserSchema.MissingAvatarReported |
