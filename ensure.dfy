/** Create-or-fetch by name (KeystoneManager._ensure_keystone_resource), as a function of the
    directory state: the result and the directory afterwards. */
module Ensurer {
  import opened Wrappers
  import opened Directory

  /** The `ys` list: the name, then the caller's domain and project looked up by name. */
  function Lookups(d: Dir, name: string, domainName: Option<string>, projectName: Option<string>): seq<Arg> {
    [Name(name), Parent(FindByName(d.domains, domainName)), Parent(FindByName(d.projects, projectName))]
  }

  /** _ensure_keystone_resource(kind, name, domain_name, project_name). `sent` is the password
      appended to a user's create arguments, `kept` the one attached to the returned user. */
  function Ensure(d: Dir, kind: Kind, name: string, domainName: Option<string>, projectName: Option<string>,
                  sent: string, kept: string): (Result<Entity>, Dir)
  {
    var allArgs := BuildArgs([Domain, Project, User], Lookups(d, name, domainName, projectName), map[]);
    if !EntityExists(d.List(kind), name) then
      if kind !in allArgs then (Err(KeyError(KindName(kind))), d)
      else if kind == User then
        var (user, after) := d.Create(User, allArgs[User] + [Password(sent)]);
        (Ok(Entity(user, Some(kept))), after)
      else
        var (made, after) := d.Create(kind, allArgs[kind]);
        (Ok(Entity(made, None)), after)
    else
      var first := FindByName(d.List(kind), Some(name)).value;
      match d.Get(kind, first.id)
      case Ok(got) => (Ok(Entity(got, None)), d)
      case Err(e) => (Err(e), d)
  }

  /** The create arguments per kind, written out: the name, then the parents the kind depends on,
      and for a user a password last. */
  function CreateArgs(kind: Kind, name: string, domain: Option<Record>, project: Option<Record>, sent: string): seq<Arg> {
    match kind
    case Domain => [Name(name)]
    case Project => [Name(name), Parent(domain)]
    case User => [Name(name), Parent(domain), Parent(project), Password(sent)]
    case Role => [Name(name)]
  }

  /** Ids are unique in a valid list, so get of the first match's id is that match. */
  lemma GetFirstMatch(d: Dir, kind: Kind, name: string)
    requires d.Valid() && EntityExists(d.List(kind), name)
    ensures d.Get(kind, FindByName(d.List(kind), Some(name)).value.id) == Ok(FindByName(d.List(kind), Some(name)).value)
  {
    var list := d.List(kind);
    var i := FirstNamed(list, name);
    assert FirstWithId(list, list[i].id) == i;
  }

  /** A name already listed is fetched: the first record of that name comes back (with no
      password) and nothing is created. */
  lemma EnsureFound(d: Dir, kind: Kind, name: string, domainName: Option<string>, projectName: Option<string>,
                    sent: string, kept: string)
    requires d.Valid() && EntityExists(d.List(kind), name)
    ensures Ensure(d, kind, name, domainName, projectName, sent, kept)
         == (Ok(Entity(FindByName(d.List(kind), Some(name)).value, None)), d)
  {
    GetFirstMatch(d, kind, name);
  }

  /** A missing domain, project or user is created exactly once, appended with the next id and the
      arguments of its kind; the parents are the caller's domain and project as found by name.
      A new user is handed back with the second password, not the one it was created with. */
  lemma EnsureCreated(d: Dir, kind: Kind, name: string, domainName: Option<string>, projectName: Option<string>,
                      sent: string, kept: string)
    requires !EntityExists(d.List(kind), name) && kind != Role
    ensures var made := Record(d.nextId, name,
                               CreateArgs(kind, name, FindByName(d.domains, domainName), FindByName(d.projects, projectName), sent));
      Ensure(d, kind, name, domainName, projectName, sent, kept)
      == (Ok(Entity(made, if kind == User then Some(kept) else None)),
          d.WithList(kind, d.List(kind) + [made]).(nextId := d.nextId + 1))
  {
    var domain, project := FindByName(d.domains, domainName), FindByName(d.projects, projectName);
    BuildArgsForKinds(name, domain, project);
    var allArgs := BuildArgs([Domain, Project, User], Lookups(d, name, domainName, projectName), map[]);
    var args := if kind == User then allArgs[User] + [Password(sent)] else allArgs[kind];
    assert args == CreateArgs(kind, name, domain, project, sent);
    assert NameOf(args) == name;
  }

  /** build_args has no entry for a role, so ensuring a role that does not exist yet raises KeyError('role')
      and leaves the directory as it was. */
  lemma EnsureMissingRole(d: Dir, name: string, domainName: Option<string>, projectName: Option<string>,
                          sent: string, kept: string)
    requires !EntityExists(d.roles, name)
    ensures Ensure(d, Role, name, domainName, projectName, sent, kept) == (Err(KeyError("role")), d)
  {
    BuildArgsForKinds(name, FindByName(d.domains, domainName), FindByName(d.projects, projectName));
  }

  /** Ensure only ever appends to the list of its own kind. */
  lemma EnsureAppends(d: Dir, kind: Kind, name: string, domainName: Option<string>, projectName: Option<string>,
                      sent: string, kept: string)
    ensures var after := Ensure(d, kind, name, domainName, projectName, sent, kept).1;
      && d.nextId <= after.nextId
      && (forall k :: d.List(k) <= after.List(k))
      && (forall k :: k != kind ==> after.List(k) == d.List(k))
  {
    BuildArgsForKinds(name, FindByName(d.domains, domainName), FindByName(d.projects, projectName));
  }

  /** Appending a record with the next id keeps a directory valid. */
  lemma CreateValid(d: Dir, kind: Kind, args: seq<Arg>)
    requires d.Valid()
    ensures d.Create(kind, args).1.Valid()
  {
    var (made, after) := d.Create(kind, args);
    forall k, i | 0 <= i < |after.List(k)|
      ensures after.List(k)[i].id < after.nextId
    {
      if k != kind || i < |d.List(k)| {
        assert after.List(k)[i] == d.List(k)[i];
      }
    }
    forall k, i, j | 0 <= i < j < |after.List(k)|
      ensures after.List(k)[i].id != after.List(k)[j].id
    {
      if k != kind || j < |d.List(k)| {
        assert after.List(k)[i] == d.List(k)[i] && after.List(k)[j] == d.List(k)[j];
      } else {
        assert after.List(k)[i] == d.List(k)[i];
      }
    }
  }

  /** Ensure keeps the directory's ids fresh and unique. */
  lemma EnsureValid(d: Dir, kind: Kind, name: string, domainName: Option<string>, projectName: Option<string>,
                    sent: string, kept: string)
    requires d.Valid()
    ensures Ensure(d, kind, name, domainName, projectName, sent, kept).1.Valid()
  {
    var allArgs := BuildArgs([Domain, Project, User], Lookups(d, name, domainName, projectName), map[]);
    if !EntityExists(d.List(kind), name) && kind in allArgs {
      CreateValid(d, kind, if kind == User then allArgs[User] + [Password(sent)] else allArgs[kind]);
    }
  }

  /** A record ensure has just created is what the next ensure of that name fetches. */
  lemma EnsureCreatedFoundAgain(d: Dir, kind: Kind, name: string, domainName: Option<string>, projectName: Option<string>,
                                sent: string, kept: string,
                                domainName2: Option<string>, projectName2: Option<string>, sent2: string, kept2: string)
    requires d.Valid() && !EntityExists(d.List(kind), name) && kind != Role
    ensures var (first, after) := Ensure(d, kind, name, domainName, projectName, sent, kept);
      first.Ok? && Ensure(after, kind, name, domainName2, projectName2, sent2, kept2) == (Ok(Entity(first.value.record, None)), after)
  {
    EnsureCreated(d, kind, name, domainName, projectName, sent, kept);
    EnsureValid(d, kind, name, domainName, projectName, sent, kept);
    var (first, after) := Ensure(d, kind, name, domainName, projectName, sent, kept);
    var list := after.List(kind);
    var n := |d.List(kind)|;
    assert list[n] == first.value.record && list[n].name == name;
    assert FirstNamed(list, name) == n by {
      assert forall j :: 0 <= j < n ==> list[j] == d.List(kind)[j];
    }
    EnsureFound(after, kind, name, domainName2, projectName2, sent2, kept2);
  }

  /** Idempotence by name: once ensure has produced an object, ensuring the same kind and name again
      (with any parents and passwords) returns that same object and creates nothing. */
  lemma EnsureIdempotent(d: Dir, kind: Kind, name: string, domainName: Option<string>, projectName: Option<string>,
                         sent: string, kept: string,
                         domainName2: Option<string>, projectName2: Option<string>, sent2: string, kept2: string)
    requires d.Valid()
    requires Ensure(d, kind, name, domainName, projectName, sent, kept).0.Ok?
    ensures var (first, after) := Ensure(d, kind, name, domainName, projectName, sent, kept);
      Ensure(after, kind, name, domainName2, projectName2, sent2, kept2) == (Ok(Entity(first.value.record, None)), after)
  {
    if EntityExists(d.List(kind), name) {
      EnsureFound(d, kind, name, domainName, projectName, sent, kept);
      EnsureFound(d, kind, name, domainName2, projectName2, sent2, kept2);
    } else {
      BuildArgsForKinds(name, FindByName(d.domains, domainName), FindByName(d.projects, projectName));
      EnsureCreatedFoundAgain(d, kind, name, domainName, projectName, sent, kept, domainName2, projectName2, sent2, kept2);
    }
  }
}
