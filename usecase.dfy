/**
 * `UsuarioUseCaseImpl`, the implementation of the inbound port
 * `UsuarioInboundPort`: it orchestrates the entity rules and the calls on
 * the outbound port, and keeps no state of its own besides the port.
 * The inbound port's documented contracts are the `ensures` clauses of its
 * operations here.
 */
module UseCase {
  import opened Results
  import opened JavaText
  import opened Usuarios
  import opened OutboundPort
  import OutboundPortProperties

  const DadosInvalidosMessage := "Dados do usuário são inválidos"
  const EmailDuplicadoPrefix := "Já existe um usuário com o email: "
  const NaoEncontradoPrefix := "Usuário não encontrado com id: "

  /** `new UsuarioNaoEncontradoException(id)`. */
  function NaoEncontrado(id: int): (e: Error)
    ensures e.UsuarioNaoEncontrado? && |e.message| > |NaoEncontradoPrefix|
    ensures e.message[..|NaoEncontradoPrefix|] == NaoEncontradoPrefix
    ensures e.message[|NaoEncontradoPrefix|..] == IntToString(id)
  {
    var message := NaoEncontradoPrefix + IntToString(id);
    assert message[..|NaoEncontradoPrefix|] == NaoEncontradoPrefix;
    UsuarioNaoEncontrado(message)
  }

  /** What `criarUsuario` decides before saving, given what the port holds:
      the entity check first, then the duplicate check on the normalised
      email; `None` means the user is saved. */
  function CriarRejection(d: UsuarioData, users: seq<UsuarioData>): (r: Option<Error>)
    ensures !ValidData(d) ==> r == Some(UsuarioInvalido(DadosInvalidosMessage))
    ensures ValidData(d) ==>
              (r.Some? <==> exists i :: 0 <= i < |users| && EmailString(users[i]) == Some(d.email.value.value))
    ensures ValidData(d) && r.Some? ==> r == Some(UsuarioInvalido(EmailDuplicadoPrefix + d.email.value.value))
  {
    if !ValidData(d) then Some(UsuarioInvalido(DadosInvalidosMessage))
    else if FindByEmail(users, d.email.value.value).Some? then
      Some(UsuarioInvalido(EmailDuplicadoPrefix + d.email.value.value))
    else None
  }

  class UsuarioUseCaseImpl {
    const usuarioOutboundPort: InMemoryUsuarioOutboundPort

    constructor (usuarioOutboundPort: InMemoryUsuarioOutboundPort)
      ensures this.usuarioOutboundPort == usuarioOutboundPort
    {
      this.usuarioOutboundPort := usuarioOutboundPort;
    }

    /** `criarUsuario`, as implemented: a null name or email fails the
        validity check, a null CPF is accepted. An invalid user causes no
        port call, a duplicate only the lookup, and otherwise the user is
        saved once, without id, and the saved user is returned. */
    method CriarUsuario(nome: Option<string>, email: Option<Email>, cpf: Option<CPF>)
      returns (r: Result<Usuario, Error>)
      requires usuarioOutboundPort.Valid()
      modifies usuarioOutboundPort
      ensures usuarioOutboundPort.Valid()
      ensures var d := UsuarioData(None, nome, email, cpf);
        && (r.Failure? <==> CriarRejection(d, old(usuarioOutboundPort.users)).Some?)
        && (r.Failure? ==> r.error == CriarRejection(d, old(usuarioOutboundPort.users)).value)
      ensures !ValidData(UsuarioData(None, nome, email, cpf)) ==>
                && usuarioOutboundPort.calls == old(usuarioOutboundPort.calls)
                && usuarioOutboundPort.users == old(usuarioOutboundPort.users)
      ensures ValidData(UsuarioData(None, nome, email, cpf)) && r.Failure? ==>
                && usuarioOutboundPort.calls == old(usuarioOutboundPort.calls) + [CallBuscarPorEmail(email.value.value)]
                && usuarioOutboundPort.users == old(usuarioOutboundPort.users)
      ensures r.Success? ==>
                && usuarioOutboundPort.calls == old(usuarioOutboundPort.calls) +
                     [CallBuscarPorEmail(email.value.value), CallSalvar(UsuarioData(None, nome, email, cpf))]
                && fresh(r.value)
                && r.value.Data() == UsuarioData(Some(old(usuarioOutboundPort.nextId)), nome, email, cpf)
                && usuarioOutboundPort.users == old(usuarioOutboundPort.users) + [r.value.Data()]
                && FindById(usuarioOutboundPort.users, r.value.id.value) == Some(r.value.Data())
                && FindByEmail(usuarioOutboundPort.users, email.value.value).Some?
                && forall k :: FindById(old(usuarioOutboundPort.users), k).Some? ==>
                     FindById(usuarioOutboundPort.users, k) == FindById(old(usuarioOutboundPort.users), k)
    {
      var usuario := new Usuario.Transient(nome, email, cpf);
      if !usuario.IsValid() {
        return Failure(UsuarioInvalido(DadosInvalidosMessage));
      }
      var existing := usuarioOutboundPort.BuscarPorEmail(email.value.value);
      if existing.Some? {
        return Failure(UsuarioInvalido(EmailDuplicadoPrefix + email.value.value));
      }
      ghost var before := usuarioOutboundPort.users;
      var saved := usuarioOutboundPort.Salvar(usuario);
      assert EmailString(saved.Data()) == Some(email.value.value);
      forall k | FindById(before, k).Some?
        ensures FindById(usuarioOutboundPort.users, k) == FindById(before, k)
      {
        OutboundPortProperties.AppendKeepsOthers(before, saved.Data(), k);
      }
      return Success(saved);
    }

    /** The behaviour the inbound port documents and the tests expect: a
        null argument raises `NullPointerException` naming it before any port
        call; otherwise `criarUsuario` as implemented. The implementation has
        no such guards. */
    method CriarUsuarioDocumentado(nome: Option<string>, email: Option<Email>, cpf: Option<CPF>)
      returns (r: Result<Usuario, Error>)
      requires usuarioOutboundPort.Valid()
      modifies usuarioOutboundPort
      ensures usuarioOutboundPort.Valid()
      ensures nome.None? ==> r == Failure(NullPointer("nome null"))
      ensures nome.Some? && email.None? ==> r == Failure(NullPointer("email null"))
      ensures nome.Some? && email.Some? && cpf.None? ==> r == Failure(NullPointer("cpf null"))
      ensures nome.None? || email.None? || cpf.None? ==>
                && usuarioOutboundPort.calls == old(usuarioOutboundPort.calls)
                && usuarioOutboundPort.users == old(usuarioOutboundPort.users)
      ensures nome.Some? && email.Some? && cpf.Some? ==>
                var d := UsuarioData(None, nome, email, cpf);
                && (r.Failure? <==> CriarRejection(d, old(usuarioOutboundPort.users)).Some?)
                && (r.Failure? ==> r.error == CriarRejection(d, old(usuarioOutboundPort.users)).value)
                && (!ValidData(d) ==>
                      usuarioOutboundPort.calls == old(usuarioOutboundPort.calls)
                      && usuarioOutboundPort.users == old(usuarioOutboundPort.users))
                && (ValidData(d) && r.Failure? ==>
                      usuarioOutboundPort.calls == old(usuarioOutboundPort.calls) + [CallBuscarPorEmail(email.value.value)]
                      && usuarioOutboundPort.users == old(usuarioOutboundPort.users))
                && (r.Success? ==>
                      && usuarioOutboundPort.calls == old(usuarioOutboundPort.calls) +
                           [CallBuscarPorEmail(email.value.value), CallSalvar(d)]
                      && fresh(r.value)
                      && r.value.Data() == d.(id := Some(old(usuarioOutboundPort.nextId)))
                      && usuarioOutboundPort.users == old(usuarioOutboundPort.users) + [r.value.Data()]
                      && FindById(usuarioOutboundPort.users, r.value.id.value) == Some(r.value.Data()))
    {
      if nome.None? {
        return Failure(NullPointer("nome null"));
      }
      if email.None? {
        return Failure(NullPointer("email null"));
      }
      if cpf.None? {
        return Failure(NullPointer("cpf null"));
      }
      r := CriarUsuario(nome, email, cpf);
    }

    /** `buscarUsuarioPorId`: the port's user, or not-found naming the id. */
    method BuscarUsuarioPorId(id: int) returns (r: Result<Usuario, Error>)
      modifies usuarioOutboundPort
      ensures usuarioOutboundPort.users == old(usuarioOutboundPort.users)
      ensures usuarioOutboundPort.nextId == old(usuarioOutboundPort.nextId)
      ensures usuarioOutboundPort.calls == old(usuarioOutboundPort.calls) + [CallBuscarPorId(id)]
      ensures r.Success? <==> FindById(usuarioOutboundPort.users, id).Some?
      ensures r.Success? ==> fresh(r.value) && r.value.Data() == FindById(usuarioOutboundPort.users, id).value
      ensures r.Failure? ==> r.error == NaoEncontrado(id)
    {
      var found := usuarioOutboundPort.BuscarPorId(id);
      if found.None? {
        return Failure(NaoEncontrado(id));
      }
      return Success(found.value);
    }

    /** `listarTodosUsuarios`: the port's list, empty or not. */
    method ListarTodosUsuarios() returns (r: seq<Usuario>)
      modifies usuarioOutboundPort
      ensures usuarioOutboundPort.users == old(usuarioOutboundPort.users)
      ensures usuarioOutboundPort.nextId == old(usuarioOutboundPort.nextId)
      ensures usuarioOutboundPort.calls == old(usuarioOutboundPort.calls) + [CallBuscarTodos]
      ensures |r| == |usuarioOutboundPort.users|
      ensures forall i :: 0 <= i < |r| ==> fresh(r[i]) && r[i].Data() == usuarioOutboundPort.users[i]
    {
      r := usuarioOutboundPort.BuscarTodos();
    }

    /** `removerUsuario`: the lookup first; only a found user is deleted. */
    method RemoverUsuario(id: int) returns (o: Outcome<Error>)
      requires usuarioOutboundPort.Valid()
      modifies usuarioOutboundPort
      ensures usuarioOutboundPort.Valid()
      ensures usuarioOutboundPort.nextId == old(usuarioOutboundPort.nextId)
      ensures o.Fail? <==> FindById(old(usuarioOutboundPort.users), id).None?
      ensures o.Fail? ==>
                && o.error == NaoEncontrado(id)
                && usuarioOutboundPort.calls == old(usuarioOutboundPort.calls) + [CallBuscarPorId(id)]
                && usuarioOutboundPort.users == old(usuarioOutboundPort.users)
      ensures o.Pass? ==>
                && usuarioOutboundPort.calls == old(usuarioOutboundPort.calls) + [CallBuscarPorId(id), CallDeletar(id)]
                && usuarioOutboundPort.users == RemoveId(old(usuarioOutboundPort.users), id)
                && FindById(usuarioOutboundPort.users, id).None?
                && forall k :: k != id ==>
                     FindById(usuarioOutboundPort.users, k) == FindById(old(usuarioOutboundPort.users), k)
    {
      var found := BuscarUsuarioPorId(id);
      if found.Failure? {
        return Fail(found.error);
      }
      ghost var before := usuarioOutboundPort.users;
      usuarioOutboundPort.Deletar(id);
      forall k | k != id
        ensures FindById(usuarioOutboundPort.users, k) == FindById(before, k)
      {
        OutboundPortProperties.RemoveKeepsOthers(before, id, k);
      }
      return Pass;
    }
  }
}
