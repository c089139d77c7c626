/** The keystone directory as the manager sees it through the admin client (one list of
    records per resource kind, with list/get/create), name lookups over those lists, the
    per-kind creation arguments, and create-or-fetch by name
    (KeystoneManager.get_resource_by_name, _entity_exists, _ensure_keystone_resource). */
module Directory {
  import opened Wrappers

  datatype Kind = Domain | Project | User | Role

  /** The resource type string the source passes around ('domain', 'project', ...). */
  function KindName(kind: Kind): string {
    match kind
    case Domain => "domain"
    case Project => "project"
    case User => "user"
    case Role => "role"
  }

  /** A positional argument of a create call: the name, a parent object (or None), or a password. */
  datatype Arg = Name(text: string) | Parent(ref: Option<Record>) | Password(secret: string)

  /** A directory object: its id, its name and the arguments it was created with. */
  datatype Record = Record(id: nat, name: string, args: seq<Arg>)

  /** What ensure hands back: the object, and for a freshly created user the password attached to it. */
  datatype Entity = Entity(record: Record, password: Option<string>)

  /** The name a create call receives as its first positional argument. */
  function NameOf(args: seq<Arg>): string {
    if |args| > 0 && args[0].Name? then args[0].text else ""
  }

  /** The state of the directory service: one list per kind, in creation order, and the next fresh id. */
  datatype Dir = Dir(domains: seq<Record>, projects: seq<Record>, users: seq<Record>, roles: seq<Record>, nextId: nat)
  {
    /** The client's `list()` for one kind. */
    function List(kind: Kind): seq<Record> {
      match kind
      case Domain => domains
      case Project => projects
      case User => users
      case Role => roles
    }

    function WithList(kind: Kind, list: seq<Record>): (d: Dir)
      ensures d.List(kind) == list && d.nextId == nextId
      ensures forall other :: other != kind ==> d.List(other) == List(other)
    {
      match kind
      case Domain => this.(domains := list)
      case Project => this.(projects := list)
      case User => this.(users := list)
      case Role => this.(roles := list)
    }

    /** Ids are below nextId and no list holds one id twice. */
    ghost predicate Valid() {
      && (forall kind, i :: 0 <= i < |List(kind)| ==> List(kind)[i].id < nextId)
      && (forall kind, i, j :: 0 <= i < j < |List(kind)| ==> List(kind)[i].id != List(kind)[j].id)
    }

    /** The client's `create(*args)`: appends a record with a fresh id. */
    function Create(kind: Kind, args: seq<Arg>): (Record, Dir) {
      var made := Record(nextId, NameOf(args), args);
      (made, WithList(kind, List(kind) + [made]).(nextId := nextId + 1))
    }

    /** The client's `get(id)`: the record with that id, or NotFound. */
    function Get(kind: Kind, id: nat): (r: Result<Record>)
      ensures r.Ok? ==> r.value in List(kind) && r.value.id == id
      ensures r.Ok? <==> exists i :: 0 <= i < |List(kind)| && List(kind)[i].id == id
      ensures r.Err? ==> r.error == NotFound(id)
    {
      var i := FirstWithId(List(kind), id);
      if i < |List(kind)| then Ok(List(kind)[i]) else Err(NotFound(id))
    }
  }

  /** The index of the first record with the given name, or |list| when there is none. */
  function FirstNamed(list: seq<Record>, name: string): (i: nat)
    ensures i <= |list|
    ensures i < |list| ==> list[i].name == name
    ensures forall j :: 0 <= j < i ==> list[j].name != name
  {
    if list == [] then 0
    else if list[0].name == name then 0
    else 1 + FirstNamed(list[1..], name)
  }

  /** The index of the first record with the given id, or |list| when there is none. */
  function FirstWithId(list: seq<Record>, id: nat): (i: nat)
    ensures i <= |list|
    ensures i < |list| ==> list[i].id == id
    ensures forall j :: 0 <= j < i ==> list[j].id != id
  {
    if list == [] then 0
    else if list[0].id == id then 0
    else 1 + FirstWithId(list[1..], id)
  }

  /** get_resource_by_name: the first record whose name equals `name`, or None
      (always None when no name is given, since no record's name is None). */
  function FindByName(list: seq<Record>, name: Option<string>): (r: Option<Record>)
    ensures r.None? <==> (name.None? || forall j :: 0 <= j < |list| ==> list[j].name != name.value)
    ensures r.Some? ==> exists i :: 0 <= i < |list| && list[i] == r.value && list[i].name == name.value
                                   && forall j :: 0 <= j < i ==> list[j].name != name.value
  {
    if name.None? then None
    else
      var i := FirstNamed(list, name.value);
      if i < |list| then Some(list[i]) else None
  }

  /** The `entity_exists` check: `name in [x.name for x in list]`. */
  function EntityExists(list: seq<Record>, name: string): (b: bool)
    ensures b <==> exists i :: 0 <= i < |list| && list[i].name == name
  {
    name in Names(list)
  }

  /** [x.name for x in list] */
  function Names(list: seq<Record>): (names: seq<string>)
    ensures |names| == |list| && forall i :: 0 <= i < |list| ==> names[i] == list[i].name
  {
    if list == [] then [] else [list[0].name] + Names(list[1..])
  }

  /** The client collection `getattr(ks, attr)` names, if it is one of the four modelled ones. */
  function CollectionKind(attr: string): (kind: Option<Kind>)
    ensures kind.Some? ==> attr == KindName(kind.value) + "s"
    ensures kind.Some? <==> attr in ["domains", "projects", "users", "roles"]
  {
    if attr == "domains" then Some(Domain)
    else if attr == "projects" then Some(Project)
    else if attr == "users" then Some(User)
    else if attr == "roles" then Some(Role)
    else None
  }

  /** The plural of every kind's type name resolves to that kind. */
  lemma CollectionKindOfKind(kind: Kind)
    ensures CollectionKind(KindName(kind) + "s") == Some(kind)
  {
    match kind {
      case Domain => assert KindName(kind) + "s" == "domains";
      case Project => assert KindName(kind) + "s" == "projects";
      case User => assert KindName(kind) + "s" == "users";
      case Role => assert KindName(kind) + "s" == "roles";
    }
  }

  /** _entity_exists(keystone_type, name): looks the attribute up without pluralising it, so only
      a plural collection name resolves; anything else raises AttributeError. */
  function EntityExistsByType(d: Dir, keystoneType: string, name: string): (r: Result<bool>)
    ensures r.Err? <==> CollectionKind(keystoneType).None?
    ensures r.Ok? ==> (r.value <==> FindByName(d.List(CollectionKind(keystoneType).value), Some(name)).Some?)
  {
    match CollectionKind(keystoneType)
    case None => Err(AttributeError(keystoneType))
    case Some(kind) => Ok(EntityExists(d.List(kind), name))
  }

  /** Python's ys[:n] for a possibly negative n. */
  function Take(ys: seq<Arg>, n: int): (r: seq<Arg>)
    ensures |r| == if n <= 0 then 0 else if n >= |ys| then |ys| else n
  {
    if n <= 0 then [] else if n >= |ys| then ys else ys[..n]
  }

  /** Python's ys[:-1]. */
  function DropLast(ys: seq<Arg>): (r: seq<Arg>)
    ensures r == Take(ys, |ys| - 1)
  {
    if ys == [] then [] else ys[..|ys| - 1]
  }

  lemma TakeDropLast(ys: seq<Arg>, n: int)
    requires n <= |ys| - 1
    ensures Take(DropLast(ys), n) == Take(ys, n)
  {
  }

  /** What build_args(xs, ys) leaves in `all`, starting from `acc`: the keys of acc and xs;
      acc's entries for kinds not in xs untouched; and each kind of xs holding the prefix of ys
      as long as its first position in xs plus one, counting back from the end of ys
      (the walk goes from the end, so the earliest occurrence is written last). */
  ghost predicate Assembled(xs: seq<Kind>, ys: seq<Arg>, acc: map<Kind, seq<Arg>>, all: map<Kind, seq<Arg>>) {
    KeysAssembled(xs, acc, all) && KeptAssembled(xs, acc, all) && PrefixesAssembled(xs, ys, all)
  }

  ghost predicate KeysAssembled(xs: seq<Kind>, acc: map<Kind, seq<Arg>>, all: map<Kind, seq<Arg>>) {
    all.Keys == acc.Keys + (set i | 0 <= i < |xs| :: xs[i])
  }

  ghost predicate KeptAssembled(xs: seq<Kind>, acc: map<Kind, seq<Arg>>, all: map<Kind, seq<Arg>>) {
    forall k :: k in acc && k !in xs ==> k in all && all[k] == acc[k]
  }

  ghost predicate PrefixesAssembled(xs: seq<Kind>, ys: seq<Arg>, all: map<Kind, seq<Arg>>) {
    forall i :: 0 <= i < |xs| && FirstOccurrence(xs, i) ==> xs[i] in all && all[xs[i]] == Take(ys, |ys| - (|xs| - 1 - i))
  }

  /** Position i holds the first occurrence of its kind in xs. */
  predicate FirstOccurrence(xs: seq<Kind>, i: nat)
    requires i < |xs|
  {
    forall j :: 0 <= j < i ==> xs[j] != xs[i]
  }

  /** A first occurrence does not appear in the prefix before it. */
  lemma FirstOccurrenceNotBefore(xs: seq<Kind>, i: nat)
    requires i < |xs| && FirstOccurrence(xs, i)
    ensures xs[i] !in xs[..i]
  {
    assert forall j :: 0 <= j < i ==> xs[..i][j] == xs[j];
  }

  lemma KeysStep(xs: seq<Kind>, ys: seq<Arg>, acc: map<Kind, seq<Arg>>, all: map<Kind, seq<Arg>>)
    requires xs != []
    requires KeysAssembled(xs[..|xs| - 1], acc[xs[|xs| - 1] := ys], all)
    ensures KeysAssembled(xs, acc, all)
  {
    var last := |xs| - 1;
    var front := xs[..last];
    assert (set i | 0 <= i < |xs| :: xs[i]) == (set i | 0 <= i < |front| :: front[i]) + {xs[last]} by {
      assert forall i :: 0 <= i < last ==> front[i] == xs[i];
    }
  }

  lemma KeptStep(xs: seq<Kind>, ys: seq<Arg>, acc: map<Kind, seq<Arg>>, all: map<Kind, seq<Arg>>)
    requires xs != []
    requires KeptAssembled(xs[..|xs| - 1], acc[xs[|xs| - 1] := ys], all)
    ensures KeptAssembled(xs, acc, all)
  {
    var last := |xs| - 1;
    var front := xs[..last];
    forall k | k in acc && k !in xs
      ensures k in all && all[k] == acc[k]
    {
      assert k !in front && k != xs[last];
    }
  }

  lemma PrefixesStep(xs: seq<Kind>, ys: seq<Arg>, acc: map<Kind, seq<Arg>>, all: map<Kind, seq<Arg>>)
    requires xs != []
    requires KeptAssembled(xs[..|xs| - 1], acc[xs[|xs| - 1] := ys], all)
    requires PrefixesAssembled(xs[..|xs| - 1], DropLast(ys), all)
    ensures PrefixesAssembled(xs, ys, all)
  {
    var last := |xs| - 1;
    var front := xs[..last];
    forall i | 0 <= i < |xs| && FirstOccurrence(xs, i)
      ensures xs[i] in all && all[xs[i]] == Take(ys, |ys| - (|xs| - 1 - i))
    {
      if i < last {
        assert FirstOccurrence(front, i) by {
          assert forall j :: 0 <= j <= i ==> front[j] == xs[j];
        }
        assert front[i] == xs[i];
        TakeDropLast(ys, |ys| - (|xs| - 1 - i));
      } else {
        FirstOccurrenceNotBefore(xs, last);
      }
    }
  }

  /** One step of build_args preserves Assembled. */
  lemma AssembledStep(xs: seq<Kind>, ys: seq<Arg>, acc: map<Kind, seq<Arg>>, all: map<Kind, seq<Arg>>)
    requires xs != []
    requires Assembled(xs[..|xs| - 1], DropLast(ys), acc[xs[|xs| - 1] := ys], all)
    ensures Assembled(xs, ys, acc, all)
  {
    KeysStep(xs, ys, acc, all);
    KeptStep(xs, ys, acc, all);
    PrefixesStep(xs, ys, acc, all);
  }

  /** build_args: walks xs and ys together from the end, giving each kind the prefix of ys that
      is still left when the walk reaches it. */
  function BuildArgs(xs: seq<Kind>, ys: seq<Arg>, acc: map<Kind, seq<Arg>>): map<Kind, seq<Arg>>
    decreases |xs|
  {
    if xs == [] then acc
    else
      var last := |xs| - 1;
      BuildArgs(xs[..last], DropLast(ys), acc[xs[last] := ys])
  }

  /** What build_args leaves in its accumulator, for any kinds and arguments. */
  lemma {:induction false} BuildArgsAssembles(xs: seq<Kind>, ys: seq<Arg>, acc: map<Kind, seq<Arg>>)
    ensures Assembled(xs, ys, acc, BuildArgs(xs, ys, acc))
    decreases |xs|
  {
    if xs != [] {
      var last := |xs| - 1;
      BuildArgsAssembles(xs[..last], DropLast(ys), acc[xs[last] := ys]);
      AssembledStep(xs, ys, acc, BuildArgs(xs, ys, acc));
    }
  }

  /** The call in _ensure_keystone_resource: a domain takes its name, a project its name and
      domain, a user its name, domain and project; there is no entry for a role. */
  lemma BuildArgsForKinds(name: string, domain: Option<Record>, project: Option<Record>)
    ensures var all := BuildArgs([Domain, Project, User], [Name(name), Parent(domain), Parent(project)], map[]);
      && all.Keys == {Domain, Project, User}
      && all[Domain] == [Name(name)]
      && all[Project] == [Name(name), Parent(domain)]
      && all[User] == [Name(name), Parent(domain), Parent(project)]
  {
    var xs := [Domain, Project, User];
    var ys := [Name(name), Parent(domain), Parent(project)];
    var all := BuildArgs(xs, ys, map[]);
    BuildArgsAssembles(xs, ys, map[]);
    assert FirstOccurrence(xs, 0) && FirstOccurrence(xs, 1) && FirstOccurrence(xs, 2);
    assert (set i | 0 <= i < |xs| :: xs[i]) == {Domain, Project, User} by {
      assert xs[0] == Domain && xs[1] == Project && xs[2] == User;
    }
    assert Take(ys, 1) == [Name(name)];
    assert Take(ys, 2) == [Name(name), Parent(domain)];
  }
}

/** The identity service behind the admin client: its per-kind lists change only through create. */
module Service {
  import opened Directory

  class Keystone {
    var domains: seq<Record>
    var projects: seq<Record>
    var users: seq<Record>
    var roles: seq<Record>
    var nextId: nat

    function State(): Dir
      reads this
    {
      Dir(domains, projects, users, roles, nextId)
    }

    constructor (initial: Dir)
      ensures State() == initial
    {
      domains, projects, users, roles := initial.domains, initial.projects, initial.users, initial.roles;
      nextId := initial.nextId;
    }

    /** `create(*args)` on the collection for `kind`. */
    method Create(kind: Kind, args: seq<Arg>) returns (made: Record)
      modifies this
      ensures (made, State()) == old(State()).Create(kind, args)
    {
      made := Record(nextId, NameOf(args), args);
      match kind {
        case Domain => domains := domains + [made];
        case Project => projects := projects + [made];
        case User => users := users + [made];
        case Role => roles := roles + [made];
      }
      nextId := nextId + 1;
    }
  }
}
