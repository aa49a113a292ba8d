/** The studio service over its repository, the repository being a map from
    id to stored row. Names are kept unique up to case: creating or renaming
    to a name another studio already holds (ignoring case) is a conflict. */
module Studios {
  import opened Wrappers
  import opened Text
  import Model

  datatype StudioRow = StudioRow(name: string, country: string)

  type Registry = map<int, StudioRow>

  /** No two studios have names equal ignoring case. */
  ghost predicate NamesUnique(reg: Registry) {
    forall a, b | a in reg && b in reg && a != b :: !EqualsIgnoreCase(reg[a].name, reg[b].name)
  }

  /** The ids whose name equals `name` ignoring case. */
  function Holders(reg: Registry, name: string): set<int> {
    set id | id in reg && EqualsIgnoreCase(reg[id].name, name)
  }

  /** `findByNameIgnoreCase`: no match, one match, or more than one (the
      repository then raises instead of choosing). */
  datatype Lookup = NoMatch | OneMatch(id: int) | ManyMatches

  /** Some studio holds the name ignoring case exactly when the holder set is not empty. */
  lemma HoldersNonEmpty(reg: Registry, name: string)
    ensures Holders(reg, name) != {} <==> exists id | id in reg :: EqualsIgnoreCase(reg[id].name, name)
  {
    var ids := Holders(reg, name);
    forall id | id in reg && EqualsIgnoreCase(reg[id].name, name)
      ensures id in ids
    {
    }
    if ids != {} {
      HasElement(ids);
      var id :| id in ids;
      assert id in reg && EqualsIgnoreCase(reg[id].name, name);
    }
  }

  /** When no studio other than `id` holds the name, at most `id` does. */
  lemma HoldersAtMost(reg: Registry, name: string, id: int)
    ensures (forall other | other in reg && other != id :: !EqualsIgnoreCase(reg[other].name, name))
            ==> Holders(reg, name) <= {id} && |Holders(reg, name)| <= 1
  {
    if forall other | other in reg && other != id :: !EqualsIgnoreCase(reg[other].name, name) {
      assert Holders(reg, name) <= {id};
      if id in Holders(reg, name) {
        assert Holders(reg, name) == {id};
      } else {
        assert Holders(reg, name) == {};
      }
    }
  }

  lemma SingletonElement(ids: set<int>)
    requires |ids| == 1
    ensures exists id :: ids == {id}
  {
    HasElement(ids);
    var id :| id in ids;
    assert |ids - {id}| == 0;
    assert ids == {id};
  }

  lemma HasElement(ids: set<int>)
    requires ids != {}
    ensures exists id :: id in ids
  {
    if forall id :: id !in ids {
      assert false;
    }
  }

  function FindByNameIgnoreCase(reg: Registry, name: string): (r: Lookup)
    ensures r.NoMatch? <==> Holders(reg, name) == {}
    ensures r.OneMatch? <==> |Holders(reg, name)| == 1
    ensures r.OneMatch? ==> Holders(reg, name) == {r.id}
  {
    var ids := Holders(reg, name);
    if |ids| == 0 then NoMatch
    else if |ids| == 1 then
      SingletonElement(ids);
      var id :| ids == {id};
      OneMatch(id)
    else ManyMatches
  }

  /** Under unique names a lookup never finds two studios. */
  lemma UniqueLookup(reg: Registry, name: string)
    requires NamesUnique(reg)
    ensures !FindByNameIgnoreCase(reg, name).ManyMatches?
  {
    var ids := Holders(reg, name);
    if ids != {} {
      HasElement(ids);
      var id :| id in ids;
      forall other | other in ids ensures other == id {
        if other != id {
          EqualsIgnoreCaseSymmetricTransitive(reg[id].name, name, reg[other].name);
        }
      }
      assert ids == {id};
    }
  }

  lemma EqualsIgnoreCaseSymmetricTransitive(a: string, b: string, c: string)
    requires EqualsIgnoreCase(a, b) && EqualsIgnoreCase(c, b)
    ensures EqualsIgnoreCase(a, c)
  {
  }

  /** The exceptions of the service. `Ambiguous` is the repository's failure
      on several matches, which unique names rule out. */
  datatype StudioError = NotFound(message: string) | Conflict(message: string) | Ambiguous

  function Entity(reg: Registry, id: int): Model.Studio
    requires id in reg
  {
    Model.Studio(Some(id), Some(reg[id].name), Some(reg[id].country))
  }

  /** `findByName`: the one studio whose name matches ignoring case. */
  function FindByName(reg: Registry, name: string): (r: Result<Model.Studio, StudioError>)
    ensures r.Success? <==> FindByNameIgnoreCase(reg, name).OneMatch?
    ensures r.Success? ==> exists id | id in reg :: r.value == Entity(reg, id) && EqualsIgnoreCase(reg[id].name, name)
    ensures Holders(reg, name) == {} ==> r == Failure(NotFound("Studio not found: " + name))
  {
    match FindByNameIgnoreCase(reg, name)
    case NoMatch => Failure(NotFound("Studio not found: " + name))
    case OneMatch(id) => Success(Entity(reg, id))
    case ManyMatches => Failure(Ambiguous)
  }

  /** `create`: a conflict if any studio holds the name ignoring case,
      otherwise one new studio under the id the database hands out. */
  function Create(reg: Registry, name: string, country: string, freshId: int)
    : (r: Result<(Registry, Model.Studio), StudioError>)
    requires freshId !in reg
    ensures r.Failure? <==> exists id | id in reg :: EqualsIgnoreCase(reg[id].name, name)
    ensures r.Failure? ==> r.error == Conflict("Studio with this name already exists")
    ensures r.Success? ==>
              && r.value.0.Keys == reg.Keys + {freshId}
              && r.value.0[freshId] == StudioRow(name, country)
              && (forall id | id in reg :: r.value.0[id] == reg[id])
              && r.value.1 == Entity(r.value.0, freshId)
  {
    HoldersNonEmpty(reg, name);
    if Holders(reg, name) != {} then
      Failure(Conflict("Studio with this name already exists"))
    else
      var reg' := reg[freshId := StudioRow(name, country)];
      Success((reg', Entity(reg', freshId)))
  }

  /** `update`: not found for an unknown id; a conflict only when a different
      studio holds the name ignoring case; otherwise the studio's name and
      country are replaced and nothing else changes. */
  function Update(reg: Registry, id: int, name: string, country: string)
    : (r: Result<(Registry, Model.Studio), StudioError>)
    ensures id !in reg ==> r == Failure(NotFound("Studio not found"))
    ensures id in reg && FindByNameIgnoreCase(reg, name) == OneMatch(id) ==> r.Success?
    ensures r.Failure? && r.error.Conflict? ==>
              exists other | other in reg :: other != id && EqualsIgnoreCase(reg[other].name, name)
    ensures id in reg && |Holders(reg, name)| == 1 && id !in Holders(reg, name) ==>
              r == Failure(Conflict("Studio with this name already exists"))
    ensures id in reg && |Holders(reg, name)| >= 2 ==> r == Failure(Ambiguous)
    ensures id in reg && (forall other | other in reg && other != id :: !EqualsIgnoreCase(reg[other].name, name))
            ==> r.Success?
    ensures r.Success? ==>
              && id in reg
              && r.value.0 == reg[id := StudioRow(name, country)]
              && r.value.1 == Entity(r.value.0, id)
  {
    HoldersAtMost(reg, name, id);
    if id !in reg then Failure(NotFound("Studio not found"))
    else
      match FindByNameIgnoreCase(reg, name)
      case OneMatch(other) =>
        if other != id then Failure(Conflict("Studio with this name already exists"))
        else
          var reg' := reg[id := StudioRow(name, country)];
          Success((reg', Entity(reg', id)))
      case NoMatch =>
        var reg' := reg[id := StudioRow(name, country)];
        Success((reg', Entity(reg', id)))
      case ManyMatches => Failure(Ambiguous)
  }

  /** `delete`: not found for an unknown id, otherwise exactly that id goes. */
  function Delete(reg: Registry, id: int): (r: Result<Registry, StudioError>)
    ensures r.Failure? <==> id !in reg
    ensures r.Success? ==> r.value.Keys == reg.Keys - {id} && forall k | k in r.value :: r.value[k] == reg[k]
  {
    if id !in reg then Failure(NotFound("Studio not found")) else Success(reg - {id})
  }

  /** Creating keeps names unique. */
  lemma CreateKeepsNamesUnique(reg: Registry, name: string, country: string, freshId: int)
    requires freshId !in reg && NamesUnique(reg)
    requires Create(reg, name, country, freshId).Success?
    ensures NamesUnique(Create(reg, name, country, freshId).value.0)
  {
    var reg' := Create(reg, name, country, freshId).value.0;
    forall a, b | a in reg' && b in reg' && a != b
      ensures !EqualsIgnoreCase(reg'[a].name, reg'[b].name)
    {
      if a == freshId {
        assert b in reg && b !in Holders(reg, name);
      } else if b == freshId {
        assert a in reg && a !in Holders(reg, name);
      }
    }
  }

  /** Updating keeps names unique. */
  lemma UpdateKeepsNamesUnique(reg: Registry, id: int, name: string, country: string)
    requires NamesUnique(reg)
    requires Update(reg, id, name, country).Success?
    ensures NamesUnique(Update(reg, id, name, country).value.0)
  {
    var reg' := Update(reg, id, name, country).value.0;
    forall a, b | a in reg' && b in reg' && a != b
      ensures !EqualsIgnoreCase(reg'[a].name, reg'[b].name)
    {
      if a == id {
        assert b in reg && b !in Holders(reg, name);
      } else if b == id {
        assert a in reg && a !in Holders(reg, name);
      }
    }
  }

  /** Deleting keeps names unique. */
  lemma DeleteKeepsNamesUnique(reg: Registry, id: int)
    requires NamesUnique(reg)
    requires Delete(reg, id).Success?
    ensures NamesUnique(Delete(reg, id).value)
  {
  }

  /** A studio may be renamed to its own name in another case. */
  lemma RenameOwnNameInOtherCase(reg: Registry, id: int, name: string, country: string)
    requires NamesUnique(reg) && id in reg
    requires EqualsIgnoreCase(reg[id].name, name)
    ensures Update(reg, id, name, country).Success?
  {
    forall other | other in reg && other != id
      ensures !EqualsIgnoreCase(reg[other].name, name)
    {
    }
  }
}
