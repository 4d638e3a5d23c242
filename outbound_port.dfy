/**
 * The outbound port `UsuarioOutboundPort`: the storage capability the domain
 * asks of the infrastructure. The port is an interface in the source; here it
 * is one in-memory implementation whose rows are `UsuarioData` snapshots,
 * whose ids come from a counter, and whose ghost log records every call, so
 * that contracts can say which calls were made and in what order.
 */
module OutboundPort {
  import opened Results
  import opened Usuarios

  /** One call on the port, with the argument it received. */
  datatype PortCall =
    | CallSalvar(usuario: UsuarioData)
    | CallBuscarPorId(id: int)
    | CallBuscarTodos
    | CallDeletar(id: int)
    | CallBuscarPorEmail(email: string)

  /** The first stored user with this id. */
  function FindById(users: seq<UsuarioData>, id: int): (r: Option<UsuarioData>)
    ensures r.None? <==> forall i :: 0 <= i < |users| ==> users[i].id != Some(id)
    ensures r.Some? ==> r.value in users && r.value.id == Some(id)
  {
    if users == [] then None
    else if users[0].id == Some(id) then Some(users[0])
    else FindById(users[1..], id)
  }

  /** The first stored user whose email string is `email`. */
  function FindByEmail(users: seq<UsuarioData>, email: string): (r: Option<UsuarioData>)
    ensures r.None? <==> forall i :: 0 <= i < |users| ==> EmailString(users[i]) != Some(email)
    ensures r.Some? ==> r.value in users && EmailString(r.value) == Some(email)
  {
    if users == [] then None
    else if EmailString(users[0]) == Some(email) then Some(users[0])
    else FindByEmail(users[1..], email)
  }

  /** The stored users without the ones that have this id, in their order. */
  function RemoveId(users: seq<UsuarioData>, id: int): (r: seq<UsuarioData>)
    ensures |r| <= |users|
    ensures forall d :: d in r <==> d in users && d.id != Some(id)
  {
    if users == [] then []
    else (if users[0].id == Some(id) then [] else [users[0]]) + RemoveId(users[1..], id)
  }

  /** The stored users with the row that has `d`'s id replaced by `d`. */
  function ReplaceId(users: seq<UsuarioData>, d: UsuarioData): (r: seq<UsuarioData>)
    ensures |r| == |users|
    ensures forall i :: 0 <= i < |users| && users[i].id != d.id ==> r[i] == users[i]
    ensures forall i :: 0 <= i < |users| && users[i].id == d.id ==> r[i] == d
  {
    seq(|users|, i requires 0 <= i < |users| => if users[i].id == d.id then d else users[i])
  }

  /** Every stored user has an id below the next one to hand out, and no
      two share an id. */
  predicate WellFormed(users: seq<UsuarioData>, nextId: int) {
    && (forall i :: 0 <= i < |users| ==> users[i].id.Some? && users[i].id.value < nextId)
    && (forall i, j :: 0 <= i < j < |users| ==> users[i].id != users[j].id)
  }

  /** A new row with an id no stored row has is the one found by that id. */
  lemma {:induction false} FindAppended(users: seq<UsuarioData>, d: UsuarioData, id: int)
    requires d.id == Some(id)
    requires forall i :: 0 <= i < |users| ==> users[i].id != Some(id)
    ensures FindById(users + [d], id) == Some(d)
  {
    if users != [] {
      assert (users + [d])[1..] == users[1..] + [d];
      FindAppended(users[1..], d, id);
    } else {
      assert users + [d] == [d];
    }
  }

  /** Replacing a row keeps the ids, so lookups find the replacement. */
  lemma {:induction false} FindReplaced(users: seq<UsuarioData>, d: UsuarioData, id: int)
    requires d.id == Some(id) && FindById(users, id).Some?
    ensures FindById(ReplaceId(users, d), id) == Some(d)
  {
    if users[0].id != Some(id) {
      assert ReplaceId(users, d)[1..] == ReplaceId(users[1..], d);
      FindReplaced(users[1..], d, id);
    }
  }

  class InMemoryUsuarioOutboundPort {
    var users: seq<UsuarioData>
    var nextId: int
    ghost var calls: seq<PortCall>

    predicate Valid()
      reads this
    {
      nextId >= 1 && WellFormed(users, nextId)
    }

    /** An empty store that has seen no calls. */
    constructor ()
      ensures Valid()
      ensures users == [] && nextId == 1 && calls == []
    {
      users, nextId, calls := [], 1, [];
    }

    /** `salvar`: a user without id is inserted under a fresh id; a user
        with an id replaces the row that has it, or is added as it is.
        The persisted user comes back as a new object. */
    method Salvar(u: Usuario) returns (saved: Usuario)
      requires Valid()
      modifies this
      ensures Valid()
      ensures calls == old(calls) + [CallSalvar(u.Data())]
      ensures fresh(saved) && saved.id.Some?
      ensures FindById(users, saved.id.value) == Some(saved.Data())
      ensures u.id.None? ==>
                && saved.Data() == u.Data().(id := Some(old(nextId)))
                && users == old(users) + [saved.Data()] && nextId == old(nextId) + 1
      ensures u.id.Some? ==> saved.Data() == u.Data()
      ensures u.id.Some? && FindById(old(users), u.id.value).Some? ==>
                users == ReplaceId(old(users), u.Data()) && nextId == old(nextId)
      ensures u.id.Some? && FindById(old(users), u.id.value).None? ==>
                && users == old(users) + [u.Data()]
                && nextId == if u.id.value < old(nextId) then old(nextId) else u.id.value + 1
    {
      calls := calls + [CallSalvar(u.Data())];
      var d := u.Data();
      if d.id.None? {
        d := d.(id := Some(nextId));
        FindAppended(users, d, nextId);
        AppendKeepsWellFormed(users, d, nextId, nextId + 1);
        users := users + [d];
        nextId := nextId + 1;
      } else if FindById(users, d.id.value).Some? {
        FindReplaced(users, d, d.id.value);
        ReplaceKeepsWellFormed(users, d, nextId);
        users := ReplaceId(users, d);
      } else {
        var next := if d.id.value < nextId then nextId else d.id.value + 1;
        FindAppended(users, d, d.id.value);
        AppendKeepsWellFormed(users, d, nextId, next);
        users := users + [d];
        nextId := next;
      }
      saved := new Usuario(d.id, d.nome, d.email, d.cpf);
    }

    /** `buscarPorId`: the stored user with this id, if there is one. */
    method BuscarPorId(id: int) returns (r: Option<Usuario>)
      modifies this
      ensures users == old(users) && nextId == old(nextId)
      ensures calls == old(calls) + [CallBuscarPorId(id)]
      ensures r.Some? <==> FindById(users, id).Some?
      ensures r.Some? ==> fresh(r.value) && r.value.Data() == FindById(users, id).value
    {
      calls := calls + [CallBuscarPorId(id)];
      var found := FindById(users, id);
      if found.None? {
        return None;
      }
      var d := found.value;
      var u := new Usuario(d.id, d.nome, d.email, d.cpf);
      return Some(u);
    }

    /** `buscarTodos`: every stored user, in storage order. */
    method BuscarTodos() returns (r: seq<Usuario>)
      modifies this
      ensures users == old(users) && nextId == old(nextId)
      ensures calls == old(calls) + [CallBuscarTodos]
      ensures |r| == |users|
      ensures forall i :: 0 <= i < |r| ==> fresh(r[i]) && r[i].Data() == users[i]
    {
      calls := calls + [CallBuscarTodos];
      r := [];
      for i := 0 to |users|
        invariant users == old(users) && nextId == old(nextId)
        invariant calls == old(calls) + [CallBuscarTodos]
        invariant |r| == i
        invariant forall k :: 0 <= k < i ==> fresh(r[k]) && r[k].Data() == users[k]
      {
        var d := users[i];
        var u := new Usuario(d.id, d.nome, d.email, d.cpf);
        r := r + [u];
      }
    }

    /** `deletar`: the user with this id is gone; the others stay, in order. */
    method Deletar(id: int)
      requires Valid()
      modifies this
      ensures Valid()
      ensures users == RemoveId(old(users), id) && nextId == old(nextId)
      ensures calls == old(calls) + [CallDeletar(id)]
      ensures FindById(users, id).None?
    {
      calls := calls + [CallDeletar(id)];
      RemoveKeepsWellFormed(users, id, nextId);
      users := RemoveId(users, id);
    }

    /** `buscarPorEmail`: a stored user whose email string is `email`, if any. */
    method BuscarPorEmail(email: string) returns (r: Option<Usuario>)
      modifies this
      ensures users == old(users) && nextId == old(nextId)
      ensures calls == old(calls) + [CallBuscarPorEmail(email)]
      ensures r.Some? <==> FindByEmail(users, email).Some?
      ensures r.Some? ==> fresh(r.value) && r.value.Data() == FindByEmail(users, email).value
    {
      calls := calls + [CallBuscarPorEmail(email)];
      var found := FindByEmail(users, email);
      if found.None? {
        return None;
      }
      var d := found.value;
      var u := new Usuario(d.id, d.nome, d.email, d.cpf);
      return Some(u);
    }
  }

  /** Removing rows keeps the ids below the counter and distinct. */
  lemma {:induction false} RemoveKeepsWellFormed(users: seq<UsuarioData>, id: int, nextId: int)
    requires WellFormed(users, nextId)
    ensures WellFormed(RemoveId(users, id), nextId)
  {
    if users != [] {
      var rest := RemoveId(users[1..], id);
      assert WellFormed(users[1..], nextId);
      RemoveKeepsWellFormed(users[1..], id, nextId);
      if users[0].id != Some(id) {
        var r := RemoveId(users, id);
        assert r == [users[0]] + rest;
        forall j | 0 < j < |r| ensures r[j].id != users[0].id {
          assert r[j] == rest[j - 1] && r[j] in rest;
          var k :| 0 <= k < |users[1..]| && users[1..][k] == r[j];
          assert users[k + 1] == r[j];
        }
      }
    }
  }

  /** A row with an id not yet stored, below the new counter, keeps the store well formed. */
  lemma AppendKeepsWellFormed(users: seq<UsuarioData>, d: UsuarioData, nextId: int, next: int)
    requires WellFormed(users, nextId) && nextId <= next
    requires d.id.Some? && d.id.value < next && FindById(users, d.id.value).None?
    ensures WellFormed(users + [d], next)
  {
  }

  /** Replacing a stored row by one with the same id keeps the store well formed. */
  lemma ReplaceKeepsWellFormed(users: seq<UsuarioData>, d: UsuarioData, nextId: int)
    requires WellFormed(users, nextId)
    requires d.id.Some? && FindById(users, d.id.value).Some?
    ensures WellFormed(ReplaceId(users, d), nextId)
  {
    var k :| 0 <= k < |users| && users[k] == FindById(users, d.id.value).value;
    assert d.id.value < nextId by {
      assert users[k].id == d.id;
    }
  }
}

/** What the store functions promise beyond their own contracts. */
module OutboundPortProperties {
  import opened Results
  import opened Usuarios
  import opened OutboundPort

  /** Deleting one id leaves every other id's lookup as it was. */
  lemma {:induction false} RemoveKeepsOthers(users: seq<UsuarioData>, id: int, k: int)
    requires k != id
    ensures FindById(RemoveId(users, id), k) == FindById(users, k)
  {
    if users != [] {
      var rest := RemoveId(users[1..], id);
      RemoveKeepsOthers(users[1..], id, k);
      if users[0].id == Some(id) {
        assert RemoveId(users, id) == rest;
      } else {
        var r := RemoveId(users, id);
        assert r == [users[0]] + rest;
        assert r[0] == users[0] && r[1..] == rest;
      }
    }
  }

  /** Replacing the row with one id leaves every other id's lookup as it was. */
  lemma {:induction false} ReplaceKeepsOthers(users: seq<UsuarioData>, d: UsuarioData, k: int)
    requires d.id != Some(k)
    ensures FindById(ReplaceId(users, d), k) == FindById(users, k)
  {
    if users != [] {
      assert ReplaceId(users, d)[1..] == ReplaceId(users[1..], d);
      ReplaceKeepsOthers(users[1..], d, k);
    }
  }

  /** A new row leaves the lookups of the ids already stored as they were. */
  lemma {:induction false} AppendKeepsOthers(users: seq<UsuarioData>, d: UsuarioData, k: int)
    requires FindById(users, k).Some?
    ensures FindById(users + [d], k) == FindById(users, k)
  {
    if users[0].id != Some(k) {
      assert (users + [d])[1..] == users[1..] + [d];
      AppendKeepsOthers(users[1..], d, k);
    }
  }
}
