/**
 * The Usuario entity: an identity that is never reassigned, a mutable name,
 * and the two value objects, a mandatory `Email` and an optional `CPF`.
 * Every reference the source allows to be null is an `Option`.
 */
module Usuarios {
  import opened Results
  import opened JavaText
  import CpfNumbers
  import EmailAddresses

  type Email = EmailAddresses.Email
  type CPF = CpfNumbers.CPF

  /** The four fields of a `Usuario` at one moment: what the port stores and
      what the contracts compare. */
  datatype UsuarioData = UsuarioData(id: Option<int>, nome: Option<string>, email: Option<Email>, cpf: Option<CPF>)

  /** `isValid`: a non-blank name and an email; the CPF is optional and,
      when present, valid by construction. */
  predicate ValidData(d: UsuarioData) {
    d.nome.Some? && !IsBlank(d.nome.value) && d.email.Some?
  }

  /** `getEmailAsString`: the normalised address, or null. */
  function EmailString(d: UsuarioData): (r: Option<string>)
    ensures r.Some? <==> d.email.Some?
  {
    match d.email
    case None => None
    case Some(e) => Some(e.value)
  }

  /** `getCpfAsString`: the eleven digits, or null. */
  function CpfString(d: UsuarioData): (r: Option<string>)
    ensures r.Some? <==> d.cpf.Some?
  {
    match d.cpf
    case None => None
    case Some(c) => Some(c.value)
  }

  /** `cpfString != null && !cpfString.isBlank() ? CPF.of(cpfString) : null`:
      a missing or blank CPF is no CPF, anything else must pass `CPF.of`. */
  function CpfOrNone(cpfString: Option<string>): (r: Result<Option<CPF>, Error>)
    ensures cpfString.None? || IsBlank(cpfString.value) ==> r == Success(None)
    ensures r.Failure? <==> cpfString.Some? && !IsBlank(cpfString.value) && CpfNumbers.FromString(cpfString).Failure?
    ensures r.Failure? ==> r.error == CpfNumbers.FromString(cpfString).error
    ensures cpfString.Some? && !IsBlank(cpfString.value) && CpfNumbers.FromString(cpfString).Success? ==>
              r == Success(Some(CpfNumbers.FromString(cpfString).value))
    ensures r.Success? && r.value.Some? ==>
              cpfString.Some? && r.value.value.value == CpfNumbers.OnlyDigits(cpfString.value)
  {
    if cpfString.None? || IsBlank(cpfString.value) then Success(None)
    else match CpfNumbers.FromString(cpfString)
      case Failure(e) => Failure(e)
      case Success(c) => Success(Some(c))
  }

  /** The outcome of `Usuario.criar(nome, emailString, cpfString)`: the email
      is read first, so its error wins; the result has no id. */
  function CriarData(nome: Option<string>, emailString: Option<string>, cpfString: Option<string>): (r: Result<UsuarioData, Error>)
    ensures r.Success? <==> EmailAddresses.Of(emailString).Success? && CpfOrNone(cpfString).Success?
    ensures EmailAddresses.Of(emailString).Failure? ==> r == Failure(EmailAddresses.Of(emailString).error)
    ensures EmailAddresses.Of(emailString).Success? && CpfOrNone(cpfString).Failure? ==>
              r == Failure(CpfOrNone(cpfString).error)
    ensures r.Success? ==> r.value.id.None? && r.value.nome == nome
    ensures r.Success? ==> EmailString(r.value) == Some(EmailAddresses.Normalize(emailString.value))
    ensures r.Success? ==> r.value.cpf == CpfOrNone(cpfString).value
  {
    match EmailAddresses.Of(emailString)
    case Failure(e) => Failure(e)
    case Success(email) =>
      match CpfOrNone(cpfString)
      case Failure(e) => Failure(e)
      case Success(cpf) => Success(UsuarioData(None, nome, Some(email), cpf))
  }

  const NomeVazioMessage := "Nome não pode ser vazio"
  const EmailNuloMessage := "Email não pode ser nulo"

  /** A `CPF.of` that answers null for a missing or blank string. */
  method ReadCpf(cpfString: Option<string>) returns (r: Result<Option<CPF>, Error>)
    ensures r == CpfOrNone(cpfString)
  {
    if cpfString.None? || IsBlank(cpfString.value) {
      return Success(None);
    }
    var c := CpfNumbers.Of(cpfString);
    match c
    case Failure(e) => return Failure(e);
    case Success(cpf) => return Success(Some(cpf));
  }

  class Usuario {
    /** No setter exists for the id: it is fixed when the object is built. */
    const id: Option<int>
    var nome: Option<string>
    var email: Option<Email>
    var cpf: Option<CPF>

    function Data(): UsuarioData
      reads this
    {
      UsuarioData(id, nome, email, cpf)
    }

    /** The no-argument constructor: every field null. */
    constructor Empty()
      ensures Data() == UsuarioData(None, None, None, None)
    {
      id, nome, email, cpf := None, None, None, None;
    }

    /** The all-arguments constructor. */
    constructor (id: Option<int>, nome: Option<string>, email: Option<Email>, cpf: Option<CPF>)
      ensures Data() == UsuarioData(id, nome, email, cpf)
    {
      this.id, this.nome, this.email, this.cpf := id, nome, email, cpf;
    }

    /** A user not yet persisted: no id. */
    constructor Transient(nome: Option<string>, email: Option<Email>, cpf: Option<CPF>)
      ensures Data() == UsuarioData(None, nome, email, cpf)
    {
      this.id, this.nome, this.email, this.cpf := None, nome, email, cpf;
    }

    /** A user not yet persisted and without CPF. */
    constructor TransientSemCpf(nome: Option<string>, email: Option<Email>)
      ensures Data() == UsuarioData(None, nome, email, None)
    {
      this.id, this.nome, this.email, this.cpf := None, nome, email, None;
    }

    /** `Usuario.criar(nome, emailString, cpfString)`. */
    static method Criar(nome: Option<string>, emailString: Option<string>, cpfString: Option<string>)
      returns (r: Result<Usuario, Error>)
      ensures r.Success? ==> fresh(r.value) && CriarData(nome, emailString, cpfString) == Success(r.value.Data())
      ensures r.Failure? ==> CriarData(nome, emailString, cpfString) == Failure(r.error)
    {
      var email := EmailAddresses.Of(emailString);
      if email.Failure? {
        return Failure(email.error);
      }
      var cpf := ReadCpf(cpfString);
      if cpf.Failure? {
        return Failure(cpf.error);
      }
      var u := new Usuario.Transient(nome, Some(email.value), cpf.value);
      return Success(u);
    }

    /** `Usuario.criar(nome, emailString)`: the same as passing a null CPF. */
    static method CriarSemCpf(nome: Option<string>, emailString: Option<string>)
      returns (r: Result<Usuario, Error>)
      ensures r.Success? ==> fresh(r.value) && CriarData(nome, emailString, None) == Success(r.value.Data())
      ensures r.Failure? ==> CriarData(nome, emailString, None) == Failure(r.error)
    {
      var email := EmailAddresses.Of(emailString);
      if email.Failure? {
        return Failure(email.error);
      }
      var u := new Usuario.Transient(nome, Some(email.value), None);
      return Success(u);
    }

    /** `isValid`. */
    predicate IsValid()
      reads this
    {
      ValidData(Data())
    }

    /** `temCpf`: whether a CPF is held, that is whether `getCpfAsString` is not null. */
    function TemCpf(): (b: bool)
      reads this
      ensures b <==> CpfString(Data()).Some?
    {
      cpf.Some?
    }

    /** `getEmailAsString`. */
    function GetEmailAsString(): Option<string>
      reads this
    {
      EmailString(Data())
    }

    /** `getCpfAsString`. */
    function GetCpfAsString(): Option<string>
      reads this
    {
      CpfString(Data())
    }

    /** `atualizarNome`: a null or blank name is refused and nothing changes;
        otherwise only the name changes. */
    method AtualizarNome(novoNome: Option<string>) returns (o: Outcome<Error>)
      modifies this
      ensures novoNome.None? || IsBlank(novoNome.value) ==>
                o == Fail(IllegalArgument(NomeVazioMessage)) && Data() == old(Data())
      ensures novoNome.Some? && !IsBlank(novoNome.value) ==>
                o == Pass && Data() == old(Data()).(nome := novoNome)
      ensures o == Pass ==> (IsValid() <==> email.Some?)
    {
      if novoNome.None? || IsBlank(novoNome.value) {
        return Fail(IllegalArgument(NomeVazioMessage));
      }
      nome := novoNome;
      return Pass;
    }

    /** `atualizarEmail(Email)`: a null email is refused and nothing changes;
        otherwise only the email changes. */
    method AtualizarEmail(novoEmail: Option<Email>) returns (o: Outcome<Error>)
      modifies this
      ensures novoEmail.None? ==> o == Fail(IllegalArgument(EmailNuloMessage)) && Data() == old(Data())
      ensures novoEmail.Some? ==> o == Pass && Data() == old(Data()).(email := novoEmail)
      ensures o == Pass ==> (IsValid() <==> old(nome).Some? && !IsBlank(old(nome).value))
    {
      if novoEmail.None? {
        return Fail(IllegalArgument(EmailNuloMessage));
      }
      email := novoEmail;
      return Pass;
    }

    /** `atualizarEmail(String)`: `Email.of` throws before the field is
        assigned, so a refused string leaves the user as it was. */
    method AtualizarEmailString(emailString: Option<string>) returns (o: Outcome<Error>)
      modifies this
      ensures EmailAddresses.Of(emailString).Failure? ==>
                o == Fail(EmailAddresses.Of(emailString).error) && Data() == old(Data())
      ensures EmailAddresses.Of(emailString).Success? ==>
                o == Pass && Data() == old(Data()).(email := Some(EmailAddresses.Of(emailString).value))
      ensures o == Pass ==> GetEmailAsString() == Some(EmailAddresses.Normalize(emailString.value))
    {
      var e := EmailAddresses.Of(emailString);
      if e.Failure? {
        return Fail(e.error);
      }
      email := Some(e.value);
      return Pass;
    }

    /** `atualizarCpf(CPF)`: unconditional; null clears the CPF. */
    method AtualizarCpf(novoCpf: Option<CPF>)
      modifies this
      ensures Data() == old(Data()).(cpf := novoCpf)
      ensures TemCpf() <==> novoCpf.Some?
    {
      cpf := novoCpf;
    }

    /** `atualizarCpf(String)`: null or blank clears the CPF, anything else
        goes through `CPF.of`, whose failure leaves the user as it was. */
    method AtualizarCpfString(cpfString: Option<string>) returns (o: Outcome<Error>)
      modifies this
      ensures CpfOrNone(cpfString).Failure? ==>
                o == Fail(CpfOrNone(cpfString).error) && Data() == old(Data())
      ensures CpfOrNone(cpfString).Success? ==>
                o == Pass && Data() == old(Data()).(cpf := CpfOrNone(cpfString).value)
      ensures cpfString.None? || IsBlank(cpfString.value) ==> o == Pass && !TemCpf()
      ensures o == Pass && TemCpf() ==> GetCpfAsString() == Some(CpfNumbers.OnlyDigits(cpfString.value))
    {
      var c := ReadCpf(cpfString);
      if c.Failure? {
        return Fail(c.error);
      }
      cpf := c.value;
      return Pass;
    }
  }
}

/** What the Usuario entity promises, proved about `Usuarios`. */
module UsuarioProperties {
  import opened Results
  import opened JavaText
  import opened Usuarios
  import EmailAddresses
  import CpfNumbers
  import EmailProperties
  import CpfProperties

  /** `getEmailAsString` gives back a string that `Email.of` turns into the same email. */
  lemma EmailStringRoundTrip(d: UsuarioData)
    requires d.email.Some?
    ensures EmailAddresses.Of(EmailString(d)) == Success(d.email.value)
  {
    EmailProperties.ValueRoundTrip(d.email.value);
  }

  /** `getCpfAsString` gives back a string that `CPF.of` turns into the same CPF. */
  lemma CpfStringRoundTrip(d: UsuarioData)
    requires d.cpf.Some?
    ensures CpfNumbers.FromString(CpfString(d)) == Success(d.cpf.value)
  {
    CpfProperties.ValueRoundTrip(d.cpf.value);
  }

  /** Neither the id nor the CPF plays a part in `isValid`. */
  lemma ValidityIgnoresIdAndCpf(d: UsuarioData, id: Option<int>, cpf: Option<CPF>)
    ensures ValidData(d.(id := id, cpf := cpf)) == ValidData(d)
  {
  }

  /** A user built by `criar` is valid exactly when its name is non-blank:
      the factory always supplies the email. */
  lemma CriarValidIff(nome: Option<string>, emailString: Option<string>, cpfString: Option<string>)
    requires CriarData(nome, emailString, cpfString).Success?
    ensures ValidData(CriarData(nome, emailString, cpfString).value) <==> nome.Some? && !IsBlank(nome.value)
  {
  }

  /** `criar` with `email-invalido` fails as `Email.of` does, whatever the CPF. */
  lemma CriarRejectsInvalidEmail(nome: Option<string>, e: string, cpfString: Option<string>)
    requires e == "email-invalido"
    ensures CriarData(nome, Some(e), cpfString) == Failure(IllegalArgument(EmailAddresses.InvalidPrefix + e))
  {
    EmailProperties.RejectsMissingAt(e);
  }
}
