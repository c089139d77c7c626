/** KeystoneManager: the provisioning cache. find_user_credentials normalises the domain, turns
    (domain, project, role) into a token, and on a miss ensures a test domain, project, user and
    role before storing the admin client manager under the token. */
module Manager {
  import opened Wrappers
  import opened Bytes
  import opened Cfb
  import opened Codec
  import opened Directory
  import opened Ensurer
  import opened Service

  /** The admin client manager: built from the environment at start-up, opaque here. */
  datatype ClientManager = ClientManager(handle: nat)

  /** A source of random choices: the i-th call to Random.random.choice picks index draw(i) mod 62. */
  type Draw = nat -> nat

  /** ascii_letters + digits, by position. */
  function AlphabetChar(i: nat): (c: char)
    requires i < 62
    ensures IsAlphanumeric(c)
  {
    if i < 26 then (i + 'a' as int) as char
    else if i < 52 then (i - 26 + 'A' as int) as char
    else (i - 52 + '0' as int) as char
  }

  predicate IsAlphanumeric(c: char) {
    'a' <= c <= 'z' || 'A' <= c <= 'Z' || '0' <= c <= '9'
  }

  /** get_random_string(length): `length` independent picks from ascii_letters + digits. */
  function RandomString(length: nat, draw: Draw): (s: string)
    ensures |s| == length
    ensures forall i :: 0 <= i < |s| ==> IsAlphanumeric(s[i])
  {
    var s := seq(length, i requires 0 <= i => AlphabetChar(draw(i) % 62));
    assert forall i :: 0 <= i < length ==> s[i] == AlphabetChar(draw(i) % 62);
    s
  }

  const KeyText: string := "Sixteen byte key"

  /** The fixed AES key, as bytes: it reads back as "Sixteen byte key". */
  function Key(): (k: Block)
    ensures FromBytes(k) == KeyText
  {
    assert IsByteString(KeyText) by {
      assert forall i :: 0 <= i < |KeyText| ==> KeyText[i] as int < 128;
    }
    FromToBytes(KeyText);
    ToBytes(KeyText)
  }

  /** A domain of '' or None stands for the project. */
  function NormaliseDomain(domain: Option<string>, project: string): (d: string)
    ensures domain.None? || domain == Some("") ==> d == project
    ensures domain.Some? && domain != Some("") ==> d == domain.value
  {
    if domain.None? || domain == Some("") then project else domain.value
  }

  /** The IV _get_cypher uses: the stored one, or the fresh bytes when none is stored yet. */
  function IvAfter(iv: Option<Block>, generated: Block): Block {
    if iv.Some? then iv.value else generated
  }

  /** One _ensure_keystone_resource call of the miss branch: kind, name, domain_name, project_name. */
  datatype Step = Step(kind: Kind, name: string, domainName: Option<string>, projectName: Option<string>)

  /** The four calls of the miss branch, in source order, sharing one suffix. The project is scoped
      by the caller's domain name, the user by the caller's domain and project names. */
  function Steps(domain: string, project: string, suffix: string): (steps: seq<Step>)
    ensures |steps| == 4 && steps[3].kind == Role
    ensures forall i :: 0 <= i < 3 ==> steps[i].kind != Role
  {
    [Step(Domain, "test-domain-" + suffix, None, None),
     Step(Project, "test-project-" + suffix, Some(domain), None),
     Step(User, "test-user-" + suffix, Some(domain), Some(project)),
     Step(Role, "test-role-" + suffix, None, None)]
  }

  /** Runs ensure calls one after the other, stopping at the first exception (which propagates
      with whatever the earlier calls created still in place). */
  function EnsureAll(d: Dir, steps: seq<Step>, sent: string, kept: string): (Result<seq<Entity>>, Dir)
    decreases |steps|
  {
    if steps == [] then (Ok([]), d)
    else
      var (first, next) := Ensure(d, steps[0].kind, steps[0].name, steps[0].domainName, steps[0].projectName, sent, kept);
      if first.Err? then (Err(first.error), next)
      else
        var (rest, after) := EnsureAll(next, steps[1..], sent, kept);
        if rest.Err? then (Err(rest.error), after) else (Ok([first.value] + rest.value), after)
  }

  /** The cache miss branch: ensure the test domain, project, user and role. */
  function Provision(d: Dir, domain: string, project: string, suffix: string, sent: string, kept: string)
    : (Result<seq<Entity>>, Dir)
  {
    EnsureAll(d, Steps(domain, project, suffix), sent, kept)
  }

  /** The manager's own state: the stored IV and the map from token to credential. */
  datatype Cache = Cache(iv: Option<Block>, users: map<string, ClientManager>)

  /** The token find_user_credentials looks up, under the IV it will use. */
  function TupleToken(aes: BlockCipher, iv: Block, domain: Option<string>, project: string, role: string): string {
    Token(aes, Key(), iv, [NormaliseDomain(domain, project), project, role])
  }

  /** find_user_credentials as a function of the cache and the directory: the result, the new
      cache and the new directory. `freshIv` is what Random would give for the IV, `suffix`,
      `sent` and `kept` what get_random_string would give. */
  function Find(aes: BlockCipher, admin: ClientManager, c: Cache, d: Dir,
                domain: Option<string>, project: string, role: string,
                freshIv: Block, suffix: string, sent: string, kept: string)
    : (Result<ClientManager>, Cache, Dir)
  {
    var iv := IvAfter(c.iv, freshIv);
    var token := TupleToken(aes, iv, domain, project, role);
    if token in c.users then (Ok(c.users[token]), Cache(Some(iv), c.users), d)
    else
      var (provisioned, after) := Provision(d, NormaliseDomain(domain, project), project, suffix, sent, kept);
      if provisioned.Err? then (Err(provisioned.error), Cache(Some(iv), c.users), after)
      else (Ok(admin), Cache(Some(iv), c.users[token := admin]), after)
  }
}

/** What find_user_credentials promises, stated over Manager.Find and Manager.Provision. */
module ManagerFacts {
  import opened Wrappers
  import opened Bytes
  import opened Cfb
  import opened Codec
  import opened Directory
  import opened Ensurer
  import opened Manager

  /** The cache discipline of one call: the IV is written once; a hit returns the stored value and
      changes nothing; a miss adds exactly the token (with the admin client manager, which is also
      returned) when provisioning succeeds, and nothing when it raises; no entry is ever removed or
      overwritten. */
  lemma FindCache(aes: BlockCipher, admin: ClientManager, c: Cache, d: Dir,
                  domain: Option<string>, project: string, role: string,
                  freshIv: Block, suffix: string, sent: string, kept: string)
    ensures var (r, c1, d1) := Find(aes, admin, c, d, domain, project, role, freshIv, suffix, sent, kept);
      var iv := IvAfter(c.iv, freshIv);
      var token := TupleToken(aes, iv, domain, project, role);
      && c1.iv == Some(iv)
      && (c.iv.Some? ==> c1.iv == c.iv)
      && (token in c.users ==> r == Ok(c.users[token]) && c1.users == c.users && d1 == d)
      && (token !in c.users && r.Ok? ==> r == Ok(admin) && c1.users == c.users[token := admin])
      && (r.Err? ==> c1.users == c.users)
      && (forall t :: t in c.users ==> t in c1.users && c1.users[t] == c.users[t])
      && c1.users.Keys <= c.users.Keys + {token}
  {
  }

  /** Idempotent cache: after a call that returned a credential, the same call again (with any
      random choices) returns the same credential and changes neither the cache nor the directory. */
  lemma SecondCallHits(aes: BlockCipher, admin: ClientManager, c: Cache, d: Dir,
                       domain: Option<string>, project: string, role: string,
                       freshIv: Block, suffix: string, sent: string, kept: string,
                       freshIv2: Block, suffix2: string, sent2: string, kept2: string)
    requires Find(aes, admin, c, d, domain, project, role, freshIv, suffix, sent, kept).0.Ok?
    ensures var (r, c1, d1) := Find(aes, admin, c, d, domain, project, role, freshIv, suffix, sent, kept);
      Find(aes, admin, c1, d1, domain, project, role, freshIv2, suffix2, sent2, kept2) == (r, c1, d1)
  {
    var (r, c1, d1) := Find(aes, admin, c, d, domain, project, role, freshIv, suffix, sent, kept);
    var iv := IvAfter(c.iv, freshIv);
    assert IvAfter(c1.iv, freshIv2) == iv;
    var token := TupleToken(aes, iv, domain, project, role);
    assert token in c1.users && r == Ok(c1.users[token]);
  }

  /** Domain defaulting: a domain of None or '' gives the same result, cache and directory as
      naming the project as the domain. */
  lemma DomainDefaulting(aes: BlockCipher, admin: ClientManager, c: Cache, d: Dir,
                         project: string, role: string,
                         freshIv: Block, suffix: string, sent: string, kept: string)
    ensures Find(aes, admin, c, d, None, project, role, freshIv, suffix, sent, kept)
         == Find(aes, admin, c, d, Some(project), project, role, freshIv, suffix, sent, kept)
    ensures Find(aes, admin, c, d, Some(""), project, role, freshIv, suffix, sent, kept)
         == Find(aes, admin, c, d, Some(project), project, role, freshIv, suffix, sent, kept)
  {
  }

  /** Distinct normalised tuples of delimiter-free byte strings never share a cache entry. */
  lemma DistinctTuplesDistinctTokens(aes: BlockCipher, iv: Block,
                                     domain1: Option<string>, project1: string, role1: string,
                                     domain2: Option<string>, project2: string, role2: string)
    requires Encodable([NormaliseDomain(domain1, project1), project1, role1])
    requires Encodable([NormaliseDomain(domain2, project2), project2, role2])
    requires [NormaliseDomain(domain1, project1), project1, role1] != [NormaliseDomain(domain2, project2), project2, role2]
    ensures TupleToken(aes, iv, domain1, project1, role1) != TupleToken(aes, iv, domain2, project2, role2)
  {
    if TupleToken(aes, iv, domain1, project1, role1) == TupleToken(aes, iv, domain2, project2, role2) {
      TokenInjective(aes, Key(), iv, [NormaliseDomain(domain1, project1), project1, role1],
                     [NormaliseDomain(domain2, project2), project2, role2]);
    }
  }

  /** The delimiter is not escaped: tuples whose names contain '|' can share a token, and so a
      cache entry. */
  lemma DelimiterCollision(aes: BlockCipher, iv: Block)
    ensures TupleToken(aes, iv, Some("a|b"), "c", "r") == TupleToken(aes, iv, Some("a"), "b|c", "r")
  {
    assert Join(["a|b", "c", "r"]) == Join(["a", "b|c", "r"]);
  }

  /** A record of another name appended to a list does not change what a lookup finds. */
  lemma FindByNameAppendOther(list: seq<Record>, made: Record, name: string)
    requires made.name != name
    ensures FindByName(list + [made], Some(name)) == FindByName(list, Some(name))
  {
    var longer := list + [made];
    assert forall j :: 0 <= j < |list| ==> longer[j] == list[j];
    var i := FirstNamed(list, name);
    if i < |list| {
      assert FirstNamed(longer, name) == i;
    }
  }

  /** Extending a list keeps the first match of a name that already occurs in it. */
  lemma FindByNameExtend(list: seq<Record>, longer: seq<Record>, name: string)
    requires list <= longer && EntityExists(list, name)
    ensures FindByName(longer, Some(name)) == FindByName(list, Some(name))
  {
    assert forall j :: 0 <= j < |list| ==> longer[j] == list[j];
    assert FirstNamed(longer, name) == FirstNamed(list, name);
  }

  /** Ensuring a domain, project or user in a valid directory never raises, and afterwards that name is listed. */
  lemma EnsureNonRoleOk(d: Dir, kind: Kind, name: string, domainName: Option<string>, projectName: Option<string>,
                        sent: string, kept: string)
    requires d.Valid() && kind != Role
    ensures var (r, after) := Ensure(d, kind, name, domainName, projectName, sent, kept);
      r.Ok? && EntityExists(after.List(kind), name)
  {
    if EntityExists(d.List(kind), name) {
      EnsureFound(d, kind, name, domainName, projectName, sent, kept);
    } else {
      EnsureCreated(d, kind, name, domainName, projectName, sent, kept);
      var after := Ensure(d, kind, name, domainName, projectName, sent, kept).1;
      assert after.List(kind)[|d.List(kind)|].name == name;
    }
  }

  /** One step only appends to the directory's lists and keeps it valid. */
  lemma EnsureStepAppends(d: Dir, s: Step, sent: string, kept: string)
    requires d.Valid()
    ensures var next := Ensure(d, s.kind, s.name, s.domainName, s.projectName, sent, kept).1;
      next.Valid() && d.nextId <= next.nextId && forall k :: d.List(k) <= next.List(k)
  {
    EnsureAppends(d, s.kind, s.name, s.domainName, s.projectName, sent, kept);
    EnsureValid(d, s.kind, s.name, s.domainName, s.projectName, sent, kept);
  }

  /** Running steps only appends to the directory's lists and keeps it valid. */
  lemma {:induction false} EnsureAllAppends(d: Dir, steps: seq<Step>, sent: string, kept: string)
    requires d.Valid()
    ensures var after := EnsureAll(d, steps, sent, kept).1;
      after.Valid() && d.nextId <= after.nextId && forall k :: d.List(k) <= after.List(k)
    decreases |steps|
  {
    if steps != [] {
      var s := steps[0];
      EnsureStepAppends(d, s, sent, kept);
      var (first, next) := Ensure(d, s.kind, s.name, s.domainName, s.projectName, sent, kept);
      if first.Ok? {
        EnsureAllAppends(next, steps[1..], sent, kept);
        var after := EnsureAll(next, steps[1..], sent, kept).1;
        assert EnsureAll(d, steps, sent, kept).1 == after;
        forall k
          ensures d.List(k) <= after.List(k)
        {
          assert d.List(k) <= next.List(k) <= after.List(k);
        }
      } else {
        assert EnsureAll(d, steps, sent, kept).1 == next;
      }
    }
  }

  /** Steps whose roles are all listed already succeed in a valid directory, leave the roles alone,
      and list every name they ensured. */
  lemma {:induction false} EnsureAllSucceeds(d: Dir, steps: seq<Step>, sent: string, kept: string)
    requires d.Valid()
    requires forall i :: 0 <= i < |steps| ==> steps[i].kind != Role || EntityExists(d.roles, steps[i].name)
    ensures var (r, after) := EnsureAll(d, steps, sent, kept);
      && r.Ok? && after.roles == d.roles
      && forall i :: 0 <= i < |steps| ==> EntityExists(after.List(steps[i].kind), steps[i].name)
    decreases |steps|
  {
    if steps != [] {
      var s, rest := steps[0], steps[1..];
      EnsureListedStep(d, s, sent, kept);
      var (first, next) := Ensure(d, s.kind, s.name, s.domainName, s.projectName, sent, kept);
      forall i | 0 <= i < |rest|
        ensures rest[i].kind != Role || EntityExists(next.roles, rest[i].name)
      {
        assert rest[i] == steps[i + 1];
      }
      EnsureAllSucceeds(next, rest, sent, kept);
      EnsureAllAppends(next, rest, sent, kept);
      var (tail, after) := EnsureAll(next, rest, sent, kept);
      assert EnsureAll(d, steps, sent, kept) == (Ok([first.value] + tail.value), after);
      ListedStaysListed(next.List(s.kind), after.List(s.kind), s.name);
      forall i | 0 <= i < |steps|
        ensures EntityExists(after.List(steps[i].kind), steps[i].name)
      {
        if i > 0 {
          assert steps[i] == rest[i - 1];
        }
      }
    }
  }

  /** A name listed in a list is still listed once the list is extended. */
  lemma ListedStaysListed(list: seq<Record>, longer: seq<Record>, name: string)
    requires list <= longer && EntityExists(list, name)
    ensures EntityExists(longer, name)
  {
    var i :| 0 <= i < |list| && list[i].name == name;
    assert longer[i] == list[i];
  }

  /** A step for a domain, project or user, or for a role that is already listed, succeeds in a
      valid directory, keeps it valid, leaves the roles alone and lists the name afterwards. */
  lemma EnsureListedStep(d: Dir, s: Step, sent: string, kept: string)
    requires d.Valid() && (s.kind != Role || EntityExists(d.roles, s.name))
    ensures var (r, next) := Ensure(d, s.kind, s.name, s.domainName, s.projectName, sent, kept);
      r.Ok? && next.Valid() && next.roles == d.roles && EntityExists(next.List(s.kind), s.name)
  {
    if s.kind == Role {
      EnsureFound(d, s.kind, s.name, s.domainName, s.projectName, sent, kept);
    } else {
      EnsureNonRoleOk(d, s.kind, s.name, s.domainName, s.projectName, sent, kept);
      EnsureNonRoleStep(d, s, sent, kept);
    }
  }

  /** A domain, project or user step in a valid directory succeeds, keeps it valid and leaves the roles alone. */
  lemma EnsureNonRoleStep(d: Dir, s: Step, sent: string, kept: string)
    requires d.Valid() && s.kind != Role
    ensures var (r, next) := Ensure(d, s.kind, s.name, s.domainName, s.projectName, sent, kept);
      r.Ok? && next.Valid() && next.roles == d.roles
  {
    EnsureNonRoleOk(d, s.kind, s.name, s.domainName, s.projectName, sent, kept);
    EnsureAppends(d, s.kind, s.name, s.domainName, s.projectName, sent, kept);
    EnsureValid(d, s.kind, s.name, s.domainName, s.projectName, sent, kept);
    assert Role != s.kind;
  }

  /** A single role step for a role that is not listed raises KeyError('role'). */
  lemma EnsureAllMissingRole(d: Dir, s: Step, sent: string, kept: string)
    requires s.kind == Role && !EntityExists(d.roles, s.name)
    ensures EnsureAll(d, [s], sent, kept) == (Err(KeyError("role")), d)
  {
    EnsureMissingRole(d, s.name, s.domainName, s.projectName, sent, kept);
  }

  /** Steps that ensure only domains, projects and users and end with a role that is not listed yet
      raise KeyError('role') at that last step, with the roles as they were. */
  lemma {:induction false} EnsureAllRaisesAtRole(d: Dir, steps: seq<Step>, sent: string, kept: string)
    requires d.Valid() && steps != []
    requires steps[|steps| - 1].kind == Role && !EntityExists(d.roles, steps[|steps| - 1].name)
    requires forall i :: 0 <= i < |steps| - 1 ==> steps[i].kind != Role
    ensures var (r, after) := EnsureAll(d, steps, sent, kept);
      r == Err(KeyError("role")) && after.roles == d.roles
    decreases |steps|
  {
    var s := steps[0];
    if |steps| == 1 {
      assert steps == [s];
      EnsureAllMissingRole(d, s, sent, kept);
    } else {
      EnsureNonRoleStep(d, s, sent, kept);
      var next := Ensure(d, s.kind, s.name, s.domainName, s.projectName, sent, kept).1;
      assert steps[1..][|steps| - 2] == steps[|steps| - 1];
      EnsureAllRaisesAtRole(next, steps[1..], sent, kept);
    }
  }

  /** Without a role named test-role-<suffix>, a miss in a valid directory raises KeyError('role')
      and leaves the cache as it was, whatever else is in the directory. */
  lemma MissWithoutRoleRaises(aes: BlockCipher, admin: ClientManager, c: Cache, d: Dir,
                              domain: Option<string>, project: string, role: string,
                              freshIv: Block, suffix: string, sent: string, kept: string)
    requires d.Valid()
    requires TupleToken(aes, IvAfter(c.iv, freshIv), domain, project, role) !in c.users
    requires !EntityExists(d.roles, "test-role-" + suffix)
    ensures var (r, c1, d1) := Find(aes, admin, c, d, domain, project, role, freshIv, suffix, sent, kept);
      r == Err(KeyError("role")) && c1.users == c.users && d1.roles == d.roles
  {
    EnsureAllRaisesAtRole(d, Steps(NormaliseDomain(domain, project), project, suffix), sent, kept);
  }

  /** With a role named test-role-<suffix> already listed, a miss in a valid directory succeeds:
      it returns the admin client manager, adds exactly the token to the cache, leaves the roles as
      they were, and afterwards the test domain, project and user are listed. */
  lemma MissWithRoleSucceeds(aes: BlockCipher, admin: ClientManager, c: Cache, d: Dir,
                             domain: Option<string>, project: string, role: string,
                             freshIv: Block, suffix: string, sent: string, kept: string)
    requires d.Valid()
    requires TupleToken(aes, IvAfter(c.iv, freshIv), domain, project, role) !in c.users
    requires EntityExists(d.roles, "test-role-" + suffix)
    ensures var (r, c1, d1) := Find(aes, admin, c, d, domain, project, role, freshIv, suffix, sent, kept);
      var token := TupleToken(aes, IvAfter(c.iv, freshIv), domain, project, role);
      && r == Ok(admin) && c1.users == c.users[token := admin] && d1.roles == d.roles
      && EntityExists(d1.domains, "test-domain-" + suffix)
      && EntityExists(d1.projects, "test-project-" + suffix)
      && EntityExists(d1.users, "test-user-" + suffix)
  {
    var steps := Steps(NormaliseDomain(domain, project), project, suffix);
    EnsureAllSucceeds(d, steps, sent, kept);
    var after := EnsureAll(d, steps, sent, kept).1;
    assert EntityExists(after.List(steps[0].kind), steps[0].name);
    assert EntityExists(after.List(steps[1].kind), steps[1].name);
    assert EntityExists(after.List(steps[2].kind), steps[2].name);
  }

  /** A successful first step followed by a successful rest is a successful run. */
  lemma EnsureAllOk(d: Dir, s: Step, rest: seq<Step>, sent: string, kept: string,
                    first: Entity, next: Dir, made: seq<Entity>, after: Dir)
    requires Ensure(d, s.kind, s.name, s.domainName, s.projectName, sent, kept) == (Ok(first), next)
    requires EnsureAll(next, rest, sent, kept) == (Ok(made), after)
    ensures EnsureAll(d, [s] + rest, sent, kept) == (Ok([first] + made), after)
  {
    assert ([s] + rest)[0] == s && ([s] + rest)[1..] == rest;
  }

  /** A failing first step stops the run. */
  lemma EnsureAllErr(d: Dir, s: Step, rest: seq<Step>, sent: string, kept: string, e: Exception, next: Dir)
    requires Ensure(d, s.kind, s.name, s.domainName, s.projectName, sent, kept) == (Err(e), next)
    ensures EnsureAll(d, [s] + rest, sent, kept) == (Err(e), next)
  {
    assert ([s] + rest)[0] == s;
  }

  /** A failing later step stops the run after a successful first step. */
  lemma EnsureAllLaterErr(d: Dir, s: Step, rest: seq<Step>, sent: string, kept: string,
                          first: Entity, next: Dir, e: Exception, after: Dir)
    requires Ensure(d, s.kind, s.name, s.domainName, s.projectName, sent, kept) == (Ok(first), next)
    requires EnsureAll(next, rest, sent, kept) == (Err(e), after)
    ensures EnsureAll(d, [s] + rest, sent, kept) == (Err(e), after)
  {
    assert ([s] + rest)[0] == s && ([s] + rest)[1..] == rest;
  }

  /** The last two steps of a fresh miss: the user is created under the caller's domain and
      project, then the role raises. */
  lemma FreshUserThenRole(d: Dir, domain: string, project: string, suffix: string, sent: string, kept: string)
    requires !EntityExists(d.users, "test-user-" + suffix) && !EntityExists(d.roles, "test-role-" + suffix)
    ensures var un := "test-user-" + suffix;
      var user := Record(d.nextId, un, [Name(un), Parent(FindByName(d.domains, Some(domain))),
                                        Parent(FindByName(d.projects, Some(project))), Password(sent)]);
      EnsureAll(d, [Step(User, un, Some(domain), Some(project)), Step(Role, "test-role-" + suffix, None, None)], sent, kept)
      == (Err(KeyError("role")), d.(users := d.users + [user], nextId := d.nextId + 1))
  {
    var un := "test-user-" + suffix;
    var steps := [Step(User, un, Some(domain), Some(project)), Step(Role, "test-role-" + suffix, None, None)];
    EnsureCreated(d, User, un, Some(domain), Some(project), sent, kept);
    var next := Ensure(d, User, un, Some(domain), Some(project), sent, kept).1;
    assert steps[1..] == [steps[1]];
    EnsureAllMissingRole(next, steps[1], sent, kept);
  }

  /** The last three steps of a fresh miss: the project is created under the caller's domain, then
      the user and the role as above. */
  lemma FreshProjectOnwards(d: Dir, domain: string, project: string, suffix: string, sent: string, kept: string)
    requires !EntityExists(d.projects, "test-project-" + suffix)
    requires !EntityExists(d.users, "test-user-" + suffix) && !EntityExists(d.roles, "test-role-" + suffix)
    ensures var pn, un := "test-project-" + suffix, "test-user-" + suffix;
      var parent := FindByName(d.domains, Some(domain));
      var projects := d.projects + [Record(d.nextId, pn, [Name(pn), Parent(parent)])];
      var user := Record(d.nextId + 1, un, [Name(un), Parent(parent), Parent(FindByName(projects, Some(project))), Password(sent)]);
      EnsureAll(d, [Step(Project, pn, Some(domain), None), Step(User, un, Some(domain), Some(project)),
                    Step(Role, "test-role-" + suffix, None, None)], sent, kept)
      == (Err(KeyError("role")), d.(projects := projects, users := d.users + [user], nextId := d.nextId + 2))
  {
    var pn, un := "test-project-" + suffix, "test-user-" + suffix;
    var steps := [Step(Project, pn, Some(domain), None), Step(User, un, Some(domain), Some(project)),
                  Step(Role, "test-role-" + suffix, None, None)];
    EnsureCreated(d, Project, pn, Some(domain), None, sent, kept);
    var next := Ensure(d, Project, pn, Some(domain), None, sent, kept).1;
    assert next == d.(projects := d.projects + [Record(d.nextId, pn, [Name(pn), Parent(FindByName(d.domains, Some(domain)))])],
                      nextId := d.nextId + 1);
    assert steps[1..] == [Step(User, un, Some(domain), Some(project)), Step(Role, "test-role-" + suffix, None, None)];
    FreshUserThenRole(next, domain, project, suffix, sent, kept);
  }

  /** A miss where none of the four test names exists yet: the domain, the project (under the
      caller's domain) and the user (under the caller's domain and project, created with the first
      password) are appended in that order with consecutive ids, then ensuring the role raises
      KeyError('role') and nothing else changes. */
  lemma ProvisionFresh(d: Dir, domain: string, project: string, suffix: string, sent: string, kept: string)
    requires !EntityExists(d.domains, "test-domain-" + suffix) && !EntityExists(d.projects, "test-project-" + suffix)
    requires !EntityExists(d.users, "test-user-" + suffix) && !EntityExists(d.roles, "test-role-" + suffix)
    ensures var dn, pn, un := "test-domain-" + suffix, "test-project-" + suffix, "test-user-" + suffix;
      var n := d.nextId;
      var domains := d.domains + [Record(n, dn, [Name(dn)])];
      var parent := FindByName(domains, Some(domain));
      var projects := d.projects + [Record(n + 1, pn, [Name(pn), Parent(parent)])];
      var users := d.users + [Record(n + 2, un, [Name(un), Parent(parent), Parent(FindByName(projects, Some(project))), Password(sent)])];
      Provision(d, domain, project, suffix, sent, kept) == (Err(KeyError("role")), Dir(domains, projects, users, d.roles, n + 3))
  {
    var steps := Steps(domain, project, suffix);
    EnsureCreated(d, Domain, "test-domain-" + suffix, None, None, sent, kept);
    var next := Ensure(d, Domain, "test-domain-" + suffix, None, None, sent, kept).1;
    assert steps[1..] == [steps[1], steps[2], steps[3]];
    FreshProjectOnwards(next, domain, project, suffix, sent, kept);
  }

  /** A new user is created with a 32-character alphanumeric password as its last create argument
      and handed back with a different draw of 32 alphanumeric characters attached. */
  lemma NewUserPasswords(d: Dir, name: string, domainName: Option<string>, projectName: Option<string>,
                         sentDraw: Draw, keptDraw: Draw)
    requires !EntityExists(d.users, name)
    ensures var (r, after) := Ensure(d, User, name, domainName, projectName, RandomString(32, sentDraw), RandomString(32, keptDraw));
      && r.Ok? && after.users == d.users + [r.value.record]
      && |r.value.record.args| == 4 && r.value.record.args[3] == Password(RandomString(32, sentDraw))
      && r.value.password == Some(RandomString(32, keptDraw))
      && |r.value.record.args[3].secret| == 32 && |r.value.password.value| == 32
  {
    EnsureCreated(d, User, name, domainName, projectName, RandomString(32, sentDraw), RandomString(32, keptDraw));
  }

  /** The entities with the passwords dropped, as a refetch returns them. */
  function Refetched(es: seq<Entity>): (rs: seq<Entity>)
    ensures |rs| == |es| && forall i :: 0 <= i < |es| ==> rs[i] == Entity(es[i].record, None)
  {
    if es == [] then [] else [Entity(es[0].record, None)] + Refetched(es[1..])
  }

  /** Once a run of steps has succeeded, running the same steps again in any later directory that only
      appended to it returns the same objects, refetched, and creates nothing. */
  lemma {:induction false} EnsureAllIdempotent(d: Dir, steps: seq<Step>, sent: string, kept: string,
                                               later: Dir, sent2: string, kept2: string)
    requires d.Valid() && later.Valid()
    requires EnsureAll(d, steps, sent, kept).0.Ok?
    requires forall k :: EnsureAll(d, steps, sent, kept).1.List(k) <= later.List(k)
    ensures EnsureAll(later, steps, sent2, kept2) == (Ok(Refetched(EnsureAll(d, steps, sent, kept).0.value)), later)
    decreases |steps|
  {
    if steps != [] {
      var s := steps[0];
      var (first, next) := Ensure(d, s.kind, s.name, s.domainName, s.projectName, sent, kept);
      EnsureValid(d, s.kind, s.name, s.domainName, s.projectName, sent, kept);
      EnsureAllAppends(next, steps[1..], sent, kept);
      EnsureAllIdempotent(next, steps[1..], sent, kept, later, sent2, kept2);
      // The first object is the first of its name in next, and so still in later.
      EnsureIdempotent(d, s.kind, s.name, s.domainName, s.projectName, sent, kept, None, None, sent2, kept2);
      assert EntityExists(next.List(s.kind), s.name);
      var found := FindByName(next.List(s.kind), Some(s.name)).value;
      EnsureFound(next, s.kind, s.name, None, None, sent2, kept2);
      assert found == first.value.record;
      assert next.List(s.kind) <= later.List(s.kind);
      FindByNameExtend(next.List(s.kind), later.List(s.kind), s.name);
      assert EntityExists(later.List(s.kind), s.name) by {
        var i :| 0 <= i < |next.List(s.kind)| && next.List(s.kind)[i].name == s.name;
        assert later.List(s.kind)[i] == next.List(s.kind)[i];
      }
      EnsureFound(later, s.kind, s.name, s.domainName, s.projectName, sent2, kept2);
      var rest := EnsureAll(next, steps[1..], sent, kept).0.value;
      assert Refetched([first.value] + rest) == [Entity(first.value.record, None)] + Refetched(rest);
    }
  }

  /** Provisioning is idempotent by name: once it has succeeded, running it again with the same
      suffix returns the same four objects, refetched without passwords, and creates nothing. */
  lemma ProvisionIdempotent(d: Dir, domain: string, project: string, suffix: string, sent: string, kept: string,
                            sent2: string, kept2: string)
    requires d.Valid()
    requires Provision(d, domain, project, suffix, sent, kept).0.Ok?
    ensures var (r, after) := Provision(d, domain, project, suffix, sent, kept);
      Provision(after, domain, project, suffix, sent2, kept2) == (Ok(Refetched(r.value)), after)
  {
    var steps := Steps(domain, project, suffix);
    EnsureAllAppends(d, steps, sent, kept);
    EnsureAllIdempotent(d, steps, sent, kept, EnsureAll(d, steps, sent, kept).1, sent2, kept2);
  }
}
