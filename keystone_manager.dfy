/** The KeystoneManager object itself: the crypto info it keeps (the fixed key and the IV that is
    filled in on first use), the map from token to credential, and the admin client it provisions
    through. Each method is proved against the function in Manager, Codec, Directory or Ensurer
    that describes it. */
module KeystoneManagers {
  import opened Wrappers
  import opened Cfb
  import opened Codec
  import opened Directory
  import opened Ensurer
  import opened Service
  import opened Manager
  import opened ManagerFacts

  /** What _get_cypher hands back: AES in CFB mode under a key and an IV. */
  datatype Cipher = Cipher(aes: BlockCipher, key: Block, iv: Block)

  class KeystoneManager {
    /** __crypto_info['key']. */
    const key: Block := Key()
    /** __crypto_info['iv']: None until the first cipher is built. */
    var iv: Option<Block>
    /** __users: token of (domain, project, role) to credential. */
    var users: map<string, ClientManager>
    /** admin_client_manager, and the identity service behind its get_keystone(). */
    const adminClientManager: ClientManager
    const keystone: Keystone
    /** The AES block function the cipher objects use. */
    const aes: BlockCipher

    /** __init__: no IV yet and no credentials; the admin client is whatever
        load_admin_client_manager built. */
    constructor (aes: BlockCipher, admin: ClientManager, keystone: Keystone)
      ensures iv == None && users == map[]
      ensures this.aes == aes && adminClientManager == admin && this.keystone == keystone
    {
      this.aes := aes;
      adminClientManager := admin;
      this.keystone := keystone;
      iv := None;
      users := map[];
    }

    /** _get_cypher: the stored IV, or on first use `generated` (Random.new().read(16)), which is
        then stored for good. */
    method GetCypher(generated: Block) returns (cipher: Cipher, ivUsed: Block)
      modifies this`iv
      ensures ivUsed == IvAfter(old(iv), generated) && iv == Some(ivUsed)
      ensures cipher == Cipher(aes, key, ivUsed)
    {
      if iv == None {
        ivUsed := generated;
        iv := Some(ivUsed);
      } else {
        ivUsed := iv.value;
      }
      cipher := Cipher(aes, key, ivUsed);
    }

    /** _encode_hash(*args): the IV followed by the CFB encryption of '|'.join(args), in hex. */
    method EncodeHash(args: seq<string>, generated: Block) returns (hash: string)
      modifies this`iv
      ensures iv == Some(IvAfter(old(iv), generated))
      ensures hash == Token(aes, key, iv.value, args)
    {
      var text := Join(args);
      var cipher, ivUsed := GetCypher(generated);
      var msg := ivUsed + Encrypt(cipher.aes, cipher.key, cipher.iv, Bytes.ToBytes(text));
      hash := Hex.Encode(msg);
    }

    /** _decode_hash(hash): unhex, decrypt with a fresh cipher over the stored IV, drop the first
        len(iv) bytes and split on '|'. */
    method DecodeHash(hash: string, generated: Block) returns (r: Result<seq<string>>)
      modifies this`iv
      ensures iv == Some(IvAfter(old(iv), generated))
      ensures r == DecodeToken(aes, key, iv.value, hash)
    {
      var cipher, ivUsed := GetCypher(generated);
      var message := Hex.Decode(hash);
      if message.Err? {
        return Err(message.error);
      }
      var plain := Decrypt(cipher.aes, cipher.key, cipher.iv, message.value);
      r := Ok(Split(Bytes.FromBytes(Drop(plain, |ivUsed|))));
    }

    /** _entity_exists(keystone_type, name): whether the named client collection lists the name;
        a type that is not a client collection raises AttributeError. */
    method EntityExists(keystoneType: string, name: string) returns (r: Result<bool>)
      ensures r == EntityExistsByType(keystone.State(), keystoneType, name)
    {
      var kind := CollectionKind(keystoneType);
      if kind.None? {
        return Err(AttributeError(keystoneType));
      }
      r := Ok(Directory.EntityExists(keystone.State().List(kind.value), name));
    }

    /** _ensure_keystone_resource(kind, name, domain_name, project_name). `sentDraw` feeds the
        password appended to a new user's create arguments, `keptDraw` get_random_string(32) for the
        password attached to the user handed back. */
    method EnsureKeystoneResource(kind: Kind, name: string, domainName: Option<string>, projectName: Option<string>,
                                  sentDraw: Draw, keptDraw: Draw)
      returns (r: Result<Entity>)
      modifies keystone
      ensures (r, keystone.State())
           == Ensure(old(keystone.State()), kind, name, domainName, projectName,
                     RandomString(32, sentDraw), RandomString(32, keptDraw))
    {
      var d := keystone.State();
      var allArgs := BuildArgs([Domain, Project, User], Lookups(d, name, domainName, projectName), map[]);
      if !Directory.EntityExists(d.List(kind), name) {
        if kind !in allArgs {
          return Err(KeyError(KindName(kind)));
        }
        var myArgs := allArgs[kind];
        if kind == User {
          var password := RandomString(32, sentDraw);
          myArgs := myArgs + [Password(password)];
          var user := keystone.Create(kind, myArgs);
          r := Ok(Entity(user, Some(RandomString(32, keptDraw))));
        } else {
          var made := keystone.Create(kind, myArgs);
          r := Ok(Entity(made, None));
        }
      } else {
        var first := FindByName(d.List(kind), Some(name)).value;
        var got := d.Get(kind, first.id);
        if got.Err? {
          return Err(got.error);
        }
        r := Ok(Entity(got.value, None));
      }
    }

    /** find_user_credentials(domain='default', project='default', role='member'). `generated` is
        the IV drawn if none is stored yet, `suffixDraw` feeds get_random_string(6). */
    method FindUserCredentials(generated: Block, suffixDraw: Draw, sentDraw: Draw, keptDraw: Draw,
                               domain: Option<string> := Some("default"), project: string := "default",
                               role: string := "member")
      returns (r: Result<ClientManager>)
      modifies this`iv, this`users, keystone
      ensures (r, Cache(iv, users), keystone.State())
           == Find(aes, adminClientManager, old(Cache(iv, users)), old(keystone.State()), domain, project, role,
                   generated, RandomString(6, suffixDraw), RandomString(32, sentDraw), RandomString(32, keptDraw))
    {
      var dom := if domain == None || domain == Some("") then project else domain.value;
      var hash := EncodeHash([dom, project, role], generated);
      if hash in users {
        return Ok(users[hash]);
      }
      var suffix := RandomString(6, suffixDraw);
      // The four calls, as the steps Manager.Provision runs.
      ghost var s0 := Step(Domain, "test-domain-" + suffix, None, None);
      ghost var s1 := Step(Project, "test-project-" + suffix, Some(dom), None);
      ghost var s2 := Step(User, "test-user-" + suffix, Some(dom), Some(project));
      ghost var s3 := Step(Role, "test-role-" + suffix, None, None);
      assert Steps(dom, project, suffix) == [s0] + ([s1] + ([s2] + [s3]));
      ghost var sent, kept := RandomString(32, sentDraw), RandomString(32, keptDraw);
      ghost var d0 := keystone.State();
      var domainResource := EnsureKeystoneResource(Domain, "test-domain-" + suffix, None, None, sentDraw, keptDraw);
      if domainResource.Err? {
        EnsureAllErr(d0, s0, [s1] + ([s2] + [s3]), sent, kept, domainResource.error, keystone.State());
        return Err(domainResource.error);
      }
      ghost var d1 := keystone.State();
      var projectResource := EnsureKeystoneResource(Project, "test-project-" + suffix, Some(dom), None, sentDraw, keptDraw);
      if projectResource.Err? {
        EnsureAllErr(d1, s1, [s2] + [s3], sent, kept, projectResource.error, keystone.State());
        EnsureAllLaterErr(d0, s0, [s1] + ([s2] + [s3]), sent, kept, domainResource.value, d1,
                          projectResource.error, keystone.State());
        return Err(projectResource.error);
      }
      ghost var d2 := keystone.State();
      var userResource := EnsureKeystoneResource(User, "test-user-" + suffix, Some(dom), Some(project), sentDraw, keptDraw);
      if userResource.Err? {
        EnsureAllErr(d2, s2, [s3], sent, kept, userResource.error, keystone.State());
        EnsureAllLaterErr(d1, s1, [s2] + [s3], sent, kept, projectResource.value, d2, userResource.error, keystone.State());
        EnsureAllLaterErr(d0, s0, [s1] + ([s2] + [s3]), sent, kept, domainResource.value, d1,
                          userResource.error, keystone.State());
        return Err(userResource.error);
      }
      ghost var d3 := keystone.State();
      var roleResource := EnsureKeystoneResource(Role, "test-role-" + suffix, None, None, sentDraw, keptDraw);
      ghost var d4 := keystone.State();
      if roleResource.Err? {
        EnsureAllErr(d3, s3, [], sent, kept, roleResource.error, d4);
        assert [s3] + [] == [s3];
        EnsureAllLaterErr(d2, s2, [s3], sent, kept, userResource.value, d3, roleResource.error, d4);
        EnsureAllLaterErr(d1, s1, [s2] + [s3], sent, kept, projectResource.value, d2, roleResource.error, d4);
        EnsureAllLaterErr(d0, s0, [s1] + ([s2] + [s3]), sent, kept, domainResource.value, d1, roleResource.error, d4);
        return Err(roleResource.error);
      }
      EnsureAllOk(d3, s3, [], sent, kept, roleResource.value, d4, [], d4);
      assert [s3] + [] == [s3];
      EnsureAllOk(d2, s2, [s3], sent, kept, userResource.value, d3, [roleResource.value] + [], d4);
      EnsureAllOk(d1, s1, [s2] + [s3], sent, kept, projectResource.value, d2,
                  [userResource.value] + ([roleResource.value] + []), d4);
      EnsureAllOk(d0, s0, [s1] + ([s2] + [s3]), sent, kept, domainResource.value, d1,
                  [projectResource.value] + ([userResource.value] + ([roleResource.value] + [])), d4);
      users := users[hash := adminClientManager];
      r := Ok(users[hash]);
    }
  }
}
