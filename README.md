# Users domain of a hexagonal user registry, in Dafny

This project models the domain layer of a small user registry built in the
hexagonal style (ports and adapters). The domain owns four parts:

- **CPF**: the Brazilian taxpayer number, a value object. It cleans its input,
  checks the length and rejects one digit repeated eleven times. It also checks
  both mod-11 check digits. Two views exist: the formatted `XXX.XXX.XXX-XX`
  and a masked form.
- **Email**: a value object. The input is trimmed and lower-cased, then matched
  against the pattern `^[A-Za-z0-9+_.-]+@[A-Za-z0-9.-]+\.[A-Za-z]{2,}$`.
  The local part and the domain can be read back.
- **Usuario**: an entity with an id, a mutable name, a mandatory Email and an
  optional CPF. It has factory methods, a validity rule and update operations.
- **UsuarioUseCaseImpl**: the use case behind the inbound port
  `UsuarioInboundPort`. It creates users, refusing invalid data and duplicate
  emails. It also looks users up, lists them and removes them, all through the
  outbound port `UsuarioOutboundPort`.

Java's `null` is `Option` and thrown exceptions are `Result`/`Outcome`
values (`results.dfy`). The exceptions keep the source's messages. The
`String`/`Character` behaviour the domain relies on is in `java_text.dfy`:
`isBlank`, `trim`, `toLowerCase`, `indexOf`, `lastIndexOf`,
`equalsIgnoreCase`, and `Long.toString` as used when an id is concatenated
into a message (`JavaText.IntToString`).

The outbound port is an interface in the source. Here it is one in-memory
implementation, `OutboundPort.InMemoryUsuarioOutboundPort`:

- a sequence of user snapshots;
- an id counter;
- a ghost log of every call made on it.

The use case's contracts can therefore state which port calls each operation
makes and in which order, as well as what the store holds afterwards. The
inbound port's documented behaviour is stated on the methods of
`UseCase.UsuarioUseCaseImpl`.

**Where the documentation and the code disagree.** The inbound port documents
that `criarUsuario` throws `NullPointerException` for any null argument
(`domain/src/main/java/com/example/domain/ports/in/UsuarioInboundPort.java:37`), and the use-case tests expect this
(`domain/src/test/java/com/example/domain/usecase/UsuarioUseCaseImplTest.java:62-98`). The implementation has no
such guard:

- a null name or email fails `isValid` and raises `UsuarioInvalidoException`;
- a null CPF is accepted.

The model follows the code in `UseCase.UsuarioUseCaseImpl.CriarUsuario`. The
documented behaviour is stated separately in
`UseCase.UsuarioUseCaseImpl.CriarUsuarioDocumentado`.

Files:

| file | modules |
|---|---|
| `results.dfy` | `Results` |
| `java_text.dfy` | `JavaText` |
| `cpf.dfy` | `CpfNumbers`, `CpfProperties` |
| `email.dfy` | `EmailAddresses`, `EmailProperties` |
| `usuario.dfy` | `Usuarios`, `UsuarioProperties` |
| `outbound_port.dfy` | `OutboundPort`, `OutboundPortProperties` |
| `usecase.dfy` | `UseCase` |

## Model

| member | source | states |
|---|---|---|
| JavaText.TrimPadded | domain/src/main/java/com/example/domain/valueobject/Email.java:40 | `trim` removes exactly the control/space padding around a text whose first and last characters it keeps |
| JavaText.IndexOf | domain/src/main/java/com/example/domain/valueobject/Email.java:59-61 | `indexOf` is absent iff the character does not occur; otherwise it is an occurrence with none before it |
| JavaText.LastIndexOf | domain/src/main/java/com/example/domain/valueobject/Email.java:18-20 | `lastIndexOf` is absent iff the character does not occur; otherwise it is an occurrence with none after it |
| JavaText.NatToString | domain/src/main/java/com/example/domain/exception/UsuarioNaoEncontradoException.java:8 | the decimal rendering of a natural number: digits only, denoting exactly that number (`DecimalValue`), with no leading zero |
| JavaText.IntToString | domain/src/main/java/com/example/domain/exception/UsuarioNaoEncontradoException.java:8 | `Long.toString`: the digits of the number, preceded by a minus sign when it is negative |
| CpfNumbers.OnlyDigits | domain/src/main/java/com/example/domain/valueobject/CPF.java:38 | removing non-digits gives only digits, never a longer string, and leaves a digit string unchanged |
| CpfNumbers.CheckDigit | domain/src/main/java/com/example/domain/valueobject/CPF.java:67-68 | a check digit is always a single decimal digit (10 and 11 become 0) |
| CpfNumbers.IsValidCpf | domain/src/main/java/com/example/domain/valueobject/CPF.java:60-87 | the two weighted-sum loops answer true exactly when the number has at least 11 digits and both check digits match; too short answers false, as the caught index error does |
| CpfNumbers.FromString | domain/src/main/java/com/example/domain/valueobject/CPF.java:32-55 | `of` succeeds iff the input is present, not blank, and its digits form an 11-digit, non-repeated number with both check digits right; the result holds those digits; each of the four guards gives its own message, in the source's order, and the checksum message quotes the raw input |
| CpfNumbers.Of | domain/src/main/java/com/example/domain/valueobject/CPF.java:32-55 | the imperative `of`, which runs the checksum loops, returns exactly what `FromString` specifies |
| CpfNumbers.Formatted | domain/src/main/java/com/example/domain/valueobject/CPF.java:99-106 | `getFormatted` is 14 characters with dots at positions 3 and 7 and a hyphen at 11 (that its digits are the value is `CpfProperties.FormattedDigits`) |
| CpfNumbers.Masked | domain/src/main/java/com/example/domain/valueobject/CPF.java:111-116 | `getMasked` is 15 characters: the fixed mask `***.***. `, three digits, a hyphen, two digits (which digits is `CpfProperties.MaskedShowsLastFive`) |
| CpfNumbers.ToString | domain/src/main/java/com/example/domain/valueobject/CPF.java:137-140 | `toString` is the formatted text; stated by `CpfProperties.FormattedRoundTrip` |
| CpfProperties.RepeatedWeightedSum | domain/src/main/java/com/example/domain/valueobject/CPF.java:63-66 | over copies of one digit, the weighted sum is that digit times the sum of the weights |
| CpfProperties.RepeatedDigitsPassChecksum | domain/src/main/java/com/example/domain/valueobject/CPF.java:44-52 | every number of one repeated digit passes both check digits, so the repetition guard is what rejects it |
| CpfProperties.OnlyDigitsOfLayout | domain/src/main/java/com/example/domain/valueobject/CPF.java:38 | cleaning the `XXX.XXX.XXX-XX` layout leaves the four digit groups concatenated |
| CpfProperties.OnlyDigitsAround | domain/src/main/java/com/example/domain/valueobject/CPF.java:38 | a separator between two texts is removed and the texts' digits stay |
| CpfProperties.FormattedDigits | domain/src/main/java/com/example/domain/valueobject/CPF.java:99-106 | `getFormatted` only inserts separators: cleaning it gives back the value |
| CpfProperties.FormattedRoundTrip | domain/src/main/java/com/example/domain/valueobject/CPF.java:99-140 | `of(cpf.getFormatted())` equals `cpf`, and `toString` is the formatted text |
| CpfProperties.ValueRoundTrip | domain/src/main/java/com/example/domain/valueobject/CPF.java:92-94 | `of(cpf.getValue())` equals `cpf` |
| CpfProperties.EqualIffSameDigits | domain/src/main/java/com/example/domain/valueobject/CPF.java:121-127 | two accepted spellings give equal CPFs iff their digits agree |
| CpfProperties.MaskedShowsLastFive | domain/src/main/java/com/example/domain/valueobject/CPF.java:111-116 | `getMasked` shows the tail of `getFormatted` and depends only on the last five digits |
| CpfProperties.AcceptedAsIs | domain/src/main/java/com/example/domain/valueobject/CPF.java:50-54 | an 11-digit string, not one repeated digit, with both check digits right is accepted unchanged |
| CpfProperties.Accepts52998224725 | domain/src/main/java/com/example/domain/valueobject/CPF.java:50-54 | `52998224725`, whose first and last digits agree, is accepted unchanged |
| CpfProperties.Accepts12345678909 | domain/src/test/java/com/example/domain/valueobject/CPFTest.java:11 | `12345678909` is a valid CPF and is accepted as it is |
| CpfProperties.Accepts11144477735 | domain/src/test/java/com/example/domain/valueobject/CPFTest.java:123 | `11144477735` is a valid CPF and is accepted as it is |
| CpfProperties.Accepts98765432100 | domain/src/test/java/com/example/domain/valueobject/CPFTest.java:108 | `98765432100` is a valid CPF and is accepted as it is |
| CpfProperties.FormatsAndMasks12345678909 | domain/src/test/java/com/example/domain/valueobject/CPFTest.java:85-93 | `12345678909` formats as `123.456.789-09` and masks as `***.***. 789-09` |
| CpfProperties.AcceptsFormatted12345678909 | domain/src/test/java/com/example/domain/valueobject/CPFTest.java:30-32 | `123.456.789-09` is read as the CPF `12345678909` |
| CpfProperties.Formats11144477735 | domain/src/main/java/com/example/domain/valueobject/CPF.java:99-106 | `11144477735` formats as `111.444.777-35` |
| CpfProperties.AcceptsFormatted11144477735 | domain/src/test/java/com/example/domain/valueobject/CPFTest.java:123 | `111.444.777-35` is read as the CPF `11144477735` |
| CpfProperties.RejectedByChecksum | domain/src/main/java/com/example/domain/valueobject/CPF.java:50-52 | an 11-digit string, not one repeated digit, that fails the checksum is rejected, and the message quotes the input |
| CpfProperties.RejectsSameEndsWrongCheckDigit | domain/src/main/java/com/example/domain/valueobject/CPF.java:50-52 | `12345678901`, whose first and last digits agree, is rejected by the checksum with the input in the message |
| CpfProperties.RejectsWrongCheckDigit | domain/src/test/java/com/example/domain/valueobject/CPFTest.java:77 | `12345678900` is rejected by the checksum |
| CpfProperties.RejectsBlank | domain/src/main/java/com/example/domain/valueobject/CPF.java:33-35 | null, empty and blank input are rejected with the blank message |
| CpfProperties.RejectedForLength | domain/src/main/java/com/example/domain/valueobject/CPF.java:40-42 | a non-empty digit string not 11 long is rejected with the length message |
| CpfProperties.RejectsWrongLength | domain/src/test/java/com/example/domain/valueobject/CPFTest.java:52-59 | nine and twelve digits are rejected for their length |
| CpfProperties.RejectsElevenOnes | domain/src/test/java/com/example/domain/valueobject/CPFTest.java:66 | `11111111111` is rejected by the repetition guard |
| CpfProperties.RepeatedLayoutRejected | domain/src/main/java/com/example/domain/valueobject/CPF.java:38-47 | a formatted spelling of one repeated digit is rejected for repetition |
| CpfProperties.RejectsFormattedZeros | domain/src/test/java/com/example/domain/valueobject/CPFTest.java:70 | `000.000.000-00` is rejected for repetition |
| EmailAddresses.PatternParts | domain/src/main/java/com/example/domain/valueobject/Email.java:18-20 | a matching string is the assembly of the three runs found at its first `@` and last `.` |
| EmailAddresses.MatchesPatternIffRegex | domain/src/main/java/com/example/domain/valueobject/Email.java:18-20 | the decision procedure accepts exactly the strings that can be cut into the regex's three runs |
| EmailAddresses.AssembleSlices | domain/src/main/java/com/example/domain/valueobject/Email.java:18-20 | in `local@host.tld` each run sits where the lengths put it |
| EmailAddresses.IndexOfIs | domain/src/main/java/com/example/domain/valueobject/Email.java:60 | the first occurrence of a character is what `indexOf` returns |
| EmailAddresses.LastIndexOfIs | domain/src/main/java/com/example/domain/valueobject/Email.java:18-20 | the last occurrence of a character is what `lastIndexOf` returns |
| EmailAddresses.SplitPositions | domain/src/main/java/com/example/domain/valueobject/Email.java:18-20 | where the regex cuts, the `@` is the first one and the `.` is the last one |
| EmailAddresses.SplitIsFound | domain/src/main/java/com/example/domain/valueobject/Email.java:42 | every string the regex can cut is accepted by the decision procedure |
| EmailAddresses.Of | domain/src/main/java/com/example/domain/valueobject/Email.java:35-47 | `of` succeeds iff the input is present, not blank, and its trimmed lower-cased form matches the pattern; the result holds that form; the blank and invalid messages, the latter quoting the raw input |
| EmailAddresses.AtIndex | domain/src/main/java/com/example/domain/valueobject/Email.java:59-68 | every Email has an `@`, neither first nor last, and `indexOf` finds the first one |
| EmailAddresses.MatchesPattern | domain/src/main/java/com/example/domain/valueobject/Email.java:18-20 | the pattern as a decision procedure; its meaning is stated by `EmailAddresses.MatchesPatternIffRegex` |
| EmailAddresses.Normalize | domain/src/main/java/com/example/domain/valueobject/Email.java:40 | `trim().toLowerCase()` is never longer than its input and holds no upper-case letter |
| EmailAddresses.Domain | domain/src/main/java/com/example/domain/valueobject/Email.java:59-61 | `getDomain` is the text after an `@`, a proper suffix of the value |
| EmailAddresses.LocalPart | domain/src/main/java/com/example/domain/valueobject/Email.java:66-68 | `getLocalPart` is the non-empty text before the first `@`, holding no `@` |
| EmailAddresses.IsFromDomain | domain/src/main/java/com/example/domain/valueobject/Email.java:73-75 | `isFromDomain`; its meaning is stated by `EmailProperties.IsFromDomainIff` |
| EmailAddresses.ToString | domain/src/main/java/com/example/domain/valueobject/Email.java:96-99 | `toString` is the value; stated by `EmailProperties.ValueRoundTrip` |
| EmailProperties.LocalAtDomain | domain/src/main/java/com/example/domain/valueobject/Email.java:59-68 | `getLocalPart() + "@" + getDomain()` is the address; the local part is a non-empty run of local characters |
| EmailProperties.DomainHasNoAt | domain/src/main/java/com/example/domain/valueobject/Email.java:59-61 | the domain contains no `@`: an Email has exactly one |
| EmailProperties.NoAtInDomain | domain/src/main/java/com/example/domain/valueobject/Email.java:18-20 | `host.tld` built from the pattern's runs contains no `@` |
| EmailProperties.PartsOfAssembled | domain/src/main/java/com/example/domain/valueobject/Email.java:59-68 | an address built from the three runs splits back into local part `local` and domain `host.tld` |
| EmailProperties.IsFromDomainIff | domain/src/main/java/com/example/domain/valueobject/Email.java:73-75 | `isFromDomain(d)` holds iff `d` is not null and lower-cases to the domain |
| EmailProperties.EmailEnds | domain/src/main/java/com/example/domain/valueobject/Email.java:18-20 | an address starts with a local-part character and ends with a letter |
| EmailProperties.ValueRoundTrip | domain/src/main/java/com/example/domain/valueobject/Email.java:52-99 | `of(e.getValue())` equals `e`, and `toString` is the value |
| EmailProperties.AcceptsPaddedAnyCase | domain/src/main/java/com/example/domain/valueobject/Email.java:40-46 | any padding of spaces or controls and any casing of an address is read as the lower-case address |
| EmailProperties.AnyCaseEnds | domain/src/main/java/com/example/domain/valueobject/Email.java:36-40 | text that lower-cases to an address is not blank and has ends that `trim` keeps |
| EmailProperties.NormalizationIdempotent | domain/src/main/java/com/example/domain/valueobject/Email.java:40-46 | re-reading an accepted email's value gives the same email |
| EmailProperties.EqualIffSameNormalForm | domain/src/main/java/com/example/domain/valueobject/Email.java:80-86 | two accepted inputs give equal emails iff they normalise to the same text |
| EmailProperties.AssembledNoUpper | domain/src/main/java/com/example/domain/valueobject/Email.java:40 | lower-case runs assemble into a lower-case address |
| EmailProperties.AssembledEmail | domain/src/main/java/com/example/domain/valueobject/Email.java:18-68 | lower-case runs fitting the pattern make an Email whose local part and domain are those runs |
| EmailProperties.JoaoAtExample | domain/src/test/java/com/example/domain/valueobject/EmailTest.java:13-15 | `joao@example.com` is a valid Email value |
| EmailProperties.DottedLocalPart | domain/src/test/java/com/example/domain/valueobject/EmailTest.java:64-66 | the address assembled from `joao.silva`, `example` and `com` is a valid Email value whose local part is `joao.silva` |
| EmailProperties.NormalizesSpacesAndCase | domain/src/test/java/com/example/domain/valueobject/EmailTest.java:21-23 | `"  JOAO@EXAMPLE.COM  "` is read as `joao@example.com` |
| EmailProperties.RejectsBlank | domain/src/main/java/com/example/domain/valueobject/Email.java:36-38 | null, empty and blank input are rejected with the blank message |
| EmailProperties.RejectsMissingAt | domain/src/test/java/com/example/domain/valueobject/EmailTest.java:43 | `email-invalido` is rejected as invalid |
| EmailProperties.RejectsEmptyLocalPart | domain/src/test/java/com/example/domain/valueobject/EmailTest.java:47 | `@example.com` is rejected as invalid |
| EmailProperties.RejectsEmptyDomain | domain/src/test/java/com/example/domain/valueobject/EmailTest.java:51 | `joao@` is rejected as invalid |
| EmailProperties.RejectedIfNotMatching | domain/src/main/java/com/example/domain/valueobject/Email.java:42-44 | a lower-case string with no padding that fails the pattern is rejected, quoting the input |
| Usuarios.EmailString | domain/src/main/java/com/example/domain/model/Usuario.java:137-139 | `getEmailAsString` is null exactly when the email is |
| Usuarios.CpfString | domain/src/main/java/com/example/domain/model/Usuario.java:144-146 | `getCpfAsString` is null exactly when the CPF is |
| Usuarios.ValidData | domain/src/main/java/com/example/domain/model/Usuario.java:67-80 | `isValid` on a snapshot; its properties are stated by `UsuarioProperties.ValidityIgnoresIdAndCpf` and `UsuarioProperties.CriarValidIff` |
| Usuarios.CpfOrNone | domain/src/main/java/com/example/domain/model/Usuario.java:49-51 | a null or blank CPF string gives no CPF; otherwise the outcome is exactly `CPF.of`'s: its CPF (holding the string's digits) when it accepts, its error when it refuses |
| Usuarios.CriarData | domain/src/main/java/com/example/domain/model/Usuario.java:47-53 | `criar` succeeds iff the email and the CPF are both read; the email's error wins; the new user has no id, keeps the name, holds the normalised email and the CPF read |
| Usuarios.ReadCpf | domain/src/main/java/com/example/domain/model/Usuario.java:49-51 | the conditional `CPF.of` call returns what `CpfOrNone` specifies |
| Usuarios.Usuario.Empty | domain/src/main/java/com/example/domain/model/Usuario.java:18 | the no-argument constructor leaves every field null |
| Usuarios.Usuario.constructor | domain/src/main/java/com/example/domain/model/Usuario.java:19-25 | the all-arguments constructor stores the four fields |
| Usuarios.Usuario.Transient | domain/src/main/java/com/example/domain/model/Usuario.java:30-34 | a user built before persisting has no id and the given name, email and CPF |
| Usuarios.Usuario.TransientSemCpf | domain/src/main/java/com/example/domain/model/Usuario.java:39-41 | the same, without a CPF |
| Usuarios.Usuario.Criar | domain/src/main/java/com/example/domain/model/Usuario.java:47-53 | the factory returns a new user exactly as `CriarData` describes, or its error |
| Usuarios.Usuario.CriarSemCpf | domain/src/main/java/com/example/domain/model/Usuario.java:58-61 | the CPF-less factory behaves as `criar` with a null CPF |
| Usuarios.Usuario.IsValid | domain/src/main/java/com/example/domain/model/Usuario.java:67-80 | `isValid` of the object is `ValidData` of its fields |
| Usuarios.Usuario.GetEmailAsString | domain/src/main/java/com/example/domain/model/Usuario.java:137-139 | `getEmailAsString`; stated by `UsuarioProperties.EmailStringRoundTrip` and `Usuario.AtualizarEmailString` |
| Usuarios.Usuario.GetCpfAsString | domain/src/main/java/com/example/domain/model/Usuario.java:144-146 | `getCpfAsString`; stated by `UsuarioProperties.CpfStringRoundTrip` and `Usuario.AtualizarCpfString` |
| Usuarios.Usuario.TemCpf | domain/src/main/java/com/example/domain/model/Usuario.java:130-132 | `temCpf` holds iff `getCpfAsString` is not null |
| Usuarios.Usuario.AtualizarNome | domain/src/main/java/com/example/domain/model/Usuario.java:85-90 | a null or blank name is refused and changes nothing; otherwise only the name changes, and validity then depends only on the email |
| Usuarios.Usuario.AtualizarEmail | domain/src/main/java/com/example/domain/model/Usuario.java:96-101 | a null email is refused and changes nothing; otherwise only the email changes |
| Usuarios.Usuario.AtualizarEmailString | domain/src/main/java/com/example/domain/model/Usuario.java:106-108 | a string `Email.of` refuses changes nothing and reports that error; otherwise only the email changes, to the normalised string |
| Usuarios.Usuario.AtualizarCpf | domain/src/main/java/com/example/domain/model/Usuario.java:114-116 | the CPF is replaced unconditionally; null clears it |
| Usuarios.Usuario.AtualizarCpfString | domain/src/main/java/com/example/domain/model/Usuario.java:121-125 | null or blank clears the CPF; a refused string changes nothing; otherwise only the CPF changes, to the string's digits |
| UsuarioProperties.EmailStringRoundTrip | domain/src/main/java/com/example/domain/model/Usuario.java:137-139 | `Email.of(getEmailAsString())` gives back the user's email |
| UsuarioProperties.CpfStringRoundTrip | domain/src/main/java/com/example/domain/model/Usuario.java:144-146 | `CPF.of(getCpfAsString())` gives back the user's CPF |
| UsuarioProperties.ValidityIgnoresIdAndCpf | domain/src/main/java/com/example/domain/model/Usuario.java:67-80 | `isValid` depends on neither the id nor the CPF |
| UsuarioProperties.CriarValidIff | domain/src/main/java/com/example/domain/model/Usuario.java:47-80 | a user made by `criar` is valid iff its name is not null and not blank |
| UsuarioProperties.CriarRejectsInvalidEmail | domain/src/test/java/com/example/domain/model/UsuarioTest.java:56-58 | `criar` with `email-invalido` fails with `Email.of`'s error, whatever the CPF |
| OutboundPort.FindById | domain/src/main/java/com/example/domain/ports/out/UsuarioOutboundPort.java:32-37 | a lookup by id is absent iff no stored user has the id; otherwise it returns a stored user with that id |
| OutboundPort.FindByEmail | domain/src/main/java/com/example/domain/ports/out/UsuarioOutboundPort.java:51-56 | a lookup by email string is absent iff no stored user has it; otherwise it returns a stored user with it |
| OutboundPort.RemoveId | domain/src/main/java/com/example/domain/ports/out/UsuarioOutboundPort.java:45-49 | after deleting an id, the store holds exactly the users without that id |
| OutboundPort.ReplaceId | domain/src/main/java/com/example/domain/ports/out/UsuarioOutboundPort.java:25-30 | saving over an id replaces the rows with that id and keeps all others in place |
| OutboundPort.FindAppended | domain/src/main/java/com/example/domain/ports/out/UsuarioOutboundPort.java:25-30 | a saved user with a new id is found by that id |
| OutboundPort.FindReplaced | domain/src/main/java/com/example/domain/ports/out/UsuarioOutboundPort.java:25-30 | a user saved over an existing id is found by that id |
| OutboundPort.RemoveKeepsWellFormed | domain/src/main/java/com/example/domain/ports/out/UsuarioOutboundPort.java:45-49 | deleting keeps ids distinct and below the counter |
| OutboundPort.AppendKeepsWellFormed | domain/src/main/java/com/example/domain/ports/out/UsuarioOutboundPort.java:25-30 | inserting a user under a new id keeps ids distinct and below the counter |
| OutboundPort.ReplaceKeepsWellFormed | domain/src/main/java/com/example/domain/ports/out/UsuarioOutboundPort.java:25-30 | replacing a stored user keeps ids distinct and below the counter |
| OutboundPort.InMemoryUsuarioOutboundPort.constructor | domain/src/main/java/com/example/domain/ports/out/UsuarioOutboundPort.java:23 | a new store is empty, well formed and has seen no calls |
| OutboundPort.InMemoryUsuarioOutboundPort.Salvar | domain/src/main/java/com/example/domain/ports/out/UsuarioOutboundPort.java:25-30 | the persisted user comes back with an id and is then found by it; a user without id gets the next id; one with a stored id replaces it; the store stays well formed |
| OutboundPort.InMemoryUsuarioOutboundPort.BuscarPorId | domain/src/main/java/com/example/domain/ports/out/UsuarioOutboundPort.java:32-37 | the user stored under the id, if any, with the store unchanged |
| OutboundPort.InMemoryUsuarioOutboundPort.BuscarTodos | domain/src/main/java/com/example/domain/ports/out/UsuarioOutboundPort.java:39-43 | every stored user, in order, with the store unchanged |
| OutboundPort.InMemoryUsuarioOutboundPort.Deletar | domain/src/main/java/com/example/domain/ports/out/UsuarioOutboundPort.java:45-49 | the user with the id is gone and the rest stay in order |
| OutboundPort.InMemoryUsuarioOutboundPort.BuscarPorEmail | domain/src/main/java/com/example/domain/ports/out/UsuarioOutboundPort.java:51-56 | a stored user with the email string, if any, with the store unchanged |
| OutboundPortProperties.RemoveKeepsOthers | domain/src/main/java/com/example/domain/ports/out/UsuarioOutboundPort.java:45-49 | deleting one id leaves every other id's lookup unchanged |
| OutboundPortProperties.ReplaceKeepsOthers | domain/src/main/java/com/example/domain/ports/out/UsuarioOutboundPort.java:25-30 | saving over one id leaves every other id's lookup unchanged |
| OutboundPortProperties.AppendKeepsOthers | domain/src/main/java/com/example/domain/ports/out/UsuarioOutboundPort.java:25-30 | inserting a user leaves the lookups of stored ids unchanged |
| UseCase.NaoEncontrado | domain/src/main/java/com/example/domain/exception/UsuarioNaoEncontradoException.java:7-9 | the not-found error's message is the fixed prefix followed by `IntToString(id)`, the id in decimal as `Long.toString` writes it |
| UseCase.CriarRejection | domain/src/main/java/com/example/domain/usecase/UsuarioUseCaseImpl.java:33-44 | invalid data is refused first; valid data is refused iff some stored user has the same email string, with that email in the message |
| UseCase.UsuarioUseCaseImpl.constructor | domain/src/main/java/com/example/domain/usecase/UsuarioUseCaseImpl.java:21-25 | the use case holds the port it is given |
| UseCase.UsuarioUseCaseImpl.CriarUsuario | domain/src/main/java/com/example/domain/usecase/UsuarioUseCaseImpl.java:28-48 | fails exactly as `CriarRejection` says; invalid data makes no port call and a duplicate only the lookup; otherwise the lookup then one save of the id-less user, which comes back with the next id, is findable, and every earlier user stays as it was |
| UseCase.UsuarioUseCaseImpl.CriarUsuarioDocumentado | domain/src/main/java/com/example/domain/ports/in/UsuarioInboundPort.java:28-39 | the documented contract: a null argument raises a NullPointerException naming it, before any port call; otherwise the same as `CriarUsuario`: the `UsuarioInvalido` error and calls of `CriarRejection`'s cases, or one lookup and one save, returning the user with the next id |
| UseCase.UsuarioUseCaseImpl.BuscarUsuarioPorId | domain/src/main/java/com/example/domain/usecase/UsuarioUseCaseImpl.java:51-54 | the stored user with the id, or not-found naming the id; the store is unchanged |
| UseCase.UsuarioUseCaseImpl.ListarTodosUsuarios | domain/src/main/java/com/example/domain/usecase/UsuarioUseCaseImpl.java:57-59 | the port's list, in order; the store is unchanged |
| UseCase.UsuarioUseCaseImpl.RemoverUsuario | domain/src/main/java/com/example/domain/usecase/UsuarioUseCaseImpl.java:62-66 | fails with not-found iff no user has the id, after only the lookup; otherwise the lookup then the delete, the user is gone and every other id's lookup is unchanged |

## Left out

- Case mapping (`toLowerCase`, `equalsIgnoreCase`) covers ASCII letters only. Non-ASCII letters are left as they are. The no-argument `toLowerCase()` follows the default locale; the model matches a root or English-like locale only (a Turkish locale maps `I` to a dotless `ı`). `equalsIgnoreCase` does not depend on the locale.
- The regular expressions are not run by a regex engine:
  - the Email pattern is a decision procedure, proved equal to the pattern's meaning (`EmailAddresses.MatchesPatternIffRegex`);
  - `(\d)\1{10}` and `[^0-9]` are written out as predicates.
- CpfNumbers.IsValidCpf: requires a digits-only argument, the only kind `of` passes it. `Character.getNumericValue` on non-digits is not modelled.
- `hashCode` of CPF and Email, and the Lombok getters beyond those named above: equality of values is Dafny's `==` on the cleaned or normalised value.
- The port interfaces have exactly one implementation here, the in-memory store:
  - the JPA and other adapters, Spring wiring and the HTTP layer are not part of this model;
  - what `salvar` does with an id that is not stored is adapter-specific; the store adds it as it is.
- The ports return new `Usuario` objects. An adapter that returns the caller's own object (aliasing) is not modelled.
- Ids are unbounded integers:
  - `Long` overflow is not modelled;
  - a null id passed to `buscarUsuarioPorId` or `removerUsuario` is not modelled.
- Concurrency is not modelled: another thread saving the same email between the duplicate check and the save.
- Two compile-time defects of `domain/src/main/java/com/example/domain/usecase/UsuarioUseCaseImpl.java` are not modelled; the model assumes the evidently intended program:
  - its imports (lines 3-9) omit `Email` and `CPF`;
  - `buscarUsuarioPorId` does not declare the checked `UsuarioNaoEncontradoException`.
- Usuarios.EmailString: states only when the result is null. That the string reads back as the same email is the separate lemma `UsuarioProperties.EmailStringRoundTrip`.
- Usuarios.CpfString: states only when the result is null. That the string reads back as the same CPF is the separate lemma `UsuarioProperties.CpfStringRoundTrip`.
- Not every literal of the tests has its own lemma. The `isFromDomain("example.com")` and `getDomain` examples, and the `criar` examples with a CPF, are covered by the general lemmas:
  - `EmailProperties.IsFromDomainIff`;
  - `EmailProperties.AssembledEmail`;
  - `Usuarios.CriarData`.
