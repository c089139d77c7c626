# KeystoneManager, modelled in Dafny

This project models `KeystoneManager` from roletester (`roletester/keystone_manager.py`). It is a
provisioning cache for identity-directory test fixtures. Given a role assignment
(domain, project, role), it hands back a credential. It does this in four parts:

- It turns the tuple into a reversible cache token. The fields are joined with `'|'`, encrypted with
  AES in CFB mode under a fixed key and a once-drawn IV, prefixed with that IV, and hex-encoded.
- It looks the token up in an in-memory map.
- On a miss, it create-or-fetches a test domain, project, user and role named `test-*-<suffix>` in
  the keystone directory. The suffix is random.
- It stores the admin client manager under the token and returns it.

The model has these modules:

- `Wrappers`: `Option`, `Result` and the exceptions the code can raise: `KeyError`, `TypeError`,
  `AttributeError`, and `NotFound` from the client's `get`.
- `Bytes`: Python 2 byte strings, and byte XOR.
- `Hex`: `str.encode('hex')` and `str.decode('hex')`, i.e. base16 as in section 8 of RFC 4648.
  Encoding is lower-case. Decoding accepts both cases and raises `TypeError` on odd length or on a
  non-hex digit.
- `Cfb`: CFB mode with 8-bit segments, as in section 6.3 of NIST SP 800-38A. This is what
  `AES.new(key, AES.MODE_CFB, iv)` does by default. The block cipher is a parameter.
- `Codec`: `'|'.join` and `split('|')`, plus the token itself (`_encode_hash` and `_decode_hash` as
  functions).
- `Directory`: the directory as values. It holds per-kind record lists with `list`, `get` and
  `create`, plus `get_resource_by_name`, `_entity_exists` and the inner `build_args`.
  - `Service.Keystone` is the client object that `create` mutates.
- `Ensurer`: `_ensure_keystone_resource` as a function of the directory state.
- `Manager` and `ManagerFacts`: `get_random_string`, `find_user_credentials` as a function of the
  cache and the directory, and what it promises.
- `KeystoneManagers.KeystoneManager`: the object itself. It keeps the key, a write-once IV and the
  token map. Its methods update these in place and are proved equal to the functions above.

Two behaviours of the code are kept as written:

- **Role on a miss.** The class docstring (lines 14-17) promises to make any missing domain,
  project, user or role. But `build_args` (lines 221-247) has no `'role'` entry, so line 251 raises
  `KeyError('role')` whenever the test role is missing. A miss therefore succeeds exactly when a role
  named `test-role-<suffix>` already exists (`ManagerFacts.MissWithRoleSucceeds`,
  `ManagerFacts.MissWithoutRoleRaises`, `ManagerFacts.ProvisionFresh`).
- **No grant, admin credential.** Line 129 caches the admin client manager (with the TODO at line
  130), and no role grant is made anywhere in lines 113-131.

## Model

| member | source | states |
|---|---|---|
| KeystoneManagers.KeystoneManager.constructor | roletester/keystone_manager.py:20-47 | a new manager has no IV yet and an empty credential map, and keeps the admin client it was given; the key is the constant "Sixteen byte key" |
| Manager.Key | roletester/keystone_manager.py:31-34 | the AES key is 16 bytes that read back as "Sixteen byte key" |
| Manager.RandomString | roletester/keystone_manager.py:69-78 | get_random_string(n) has exactly n characters, each an ASCII letter or digit |
| KeystoneManagers.KeystoneManager.GetCypher | roletester/keystone_manager.py:80-93 | the first call stores the freshly drawn IV; every later call reuses the stored IV and leaves it unchanged; the cipher is built from the fixed key and that IV |
| KeystoneManagers.KeystoneManager.EncodeHash | roletester/keystone_manager.py:154-165 | _encode_hash returns hex(iv + CFB-encrypt('\|'.join(args))) under the stored (or newly stored) IV |
| KeystoneManagers.KeystoneManager.DecodeHash | roletester/keystone_manager.py:168-179 | _decode_hash unhexes (TypeError on malformed hex), decrypts, drops len(iv) bytes and splits on '\|' |
| Codec.DecodeToken | roletester/keystone_manager.py:168-179 | decoding fails exactly when the hex decoding fails, and otherwise gives at least one field |
| Codec.TokenLayout | roletester/keystone_manager.py:162-165 | a token has 2*(16+len(text)) hex digits and its first 32 are the hex of the IV |
| Codec.TokenRoundTrip | roletester/keystone_manager.py:154-179 | decoding a token with the IV it was made with returns the original fields, for fields that are byte strings without '\|' |
| Codec.TokenInjective | roletester/keystone_manager.py:154-165 | under one IV, distinct field lists of that kind never share a token |
| Codec.SplitJoin | roletester/keystone_manager.py:162-179 | split('\|') undoes '\|'.join for non-empty lists of delimiter-free fields |
| Codec.JoinSplit | roletester/keystone_manager.py:162-179 | '\|'.join undoes split('\|') for every string |
| Codec.Split | roletester/keystone_manager.py:179 | split always yields at least one part and no part contains '\|' |
| Hex.Encode | roletester/keystone_manager.py:165 | the hex of n bytes has 2n lower-case hex digits |
| Hex.Decode | roletester/keystone_manager.py:179 | unhex succeeds exactly on text of even length made only of hex digits (either case), and otherwise raises TypeError; a successful decode has half as many bytes as digits |
| Hex.DigitValue | roletester/keystone_manager.py:179 | a character is a hex digit exactly when it is 0-9, a-f or A-F, and its value is below 16 |
| Hex.DigitValueOfDigit | roletester/keystone_manager.py:165-179 | every value below 16 is read back from the digit the encoder writes for it |
| Hex.DigitValueUpper | roletester/keystone_manager.py:179 | unhex ignores case: 'A'-'F' have the values of 'a'-'f' |
| Hex.DecodeEncode | roletester/keystone_manager.py:165-179 | unhex(hex(bytes)) == bytes |
| Hex.EncodeInjective | roletester/keystone_manager.py:165 | distinct byte strings have distinct hex encodings |
| Cfb.DecryptEncrypt | roletester/keystone_manager.py:93 | CFB decryption with the same key and IV undoes CFB encryption, for any block cipher |
| Cfb.SelfSynchronising | roletester/keystone_manager.py:164-179 | decrypting IV followed by the ciphertext and dropping 16 bytes gives the plaintext back |
| Cfb.FeedIsSuffix | roletester/keystone_manager.py:93 | the CFB shift register always holds the last 16 bytes of IV followed by ciphertext |
| Cfb.DecryptAppend | roletester/keystone_manager.py:179 | decrypting a concatenation continues from the register the first part leaves |
| Bytes.XorTwice | roletester/keystone_manager.py:164-179 | XOR with the same keystream byte twice restores the byte |
| Bytes.FromToBytes | roletester/keystone_manager.py:162-179 | a byte string survives conversion to bytes and back |
| Directory.FindByName | roletester/keystone_manager.py:133-151 | get_resource_by_name is None exactly when no record has the name (or the name is None), and otherwise the first record with that name |
| Directory.EntityExists | roletester/keystone_manager.py:219 | entity_exists(name) holds exactly when some listed record has that name |
| Directory.EntityExistsByType | roletester/keystone_manager.py:181-192 | _entity_exists raises AttributeError exactly for a type that is not one of the four modelled collections, and otherwise says whether that collection lists the name |
| KeystoneManagers.KeystoneManager.EntityExists | roletester/keystone_manager.py:181-192 | the method answers as EntityExistsByType on the current directory, and changes nothing |
| Directory.CollectionKind | roletester/keystone_manager.py:192 | exactly the plural collection names 'domains', 'projects', 'users' and 'roles' resolve, each to the kind it is the plural of |
| Directory.CollectionKindOfKind | roletester/keystone_manager.py:192 | the plural of every kind's type name resolves to that kind |
| Directory.Dir.Get | roletester/keystone_manager.py:266 | get(id) succeeds exactly when some listed record has that id, and then returns a listed record with that id; otherwise it raises NotFound(id) |
| Directory.Dir.Create | roletester/keystone_manager.py:260-264 | the client's create: defined as appending a record with the next id and the given arguments to its kind's list; Service.Keystone.Create is proved equal to it and Ensurer.CreateValid proves it keeps ids fresh and unique |
| Directory.BuildArgsAssembles | roletester/keystone_manager.py:221-239 | build_args gives every kind in xs the prefix of ys as long as its first position plus one, keeps the accumulator's other entries, and adds no other keys |
| Directory.BuildArgsForKinds | roletester/keystone_manager.py:243-247 | the call in ensure gives domain [name], project [name, domain], user [name, domain, project], and has no 'role' key |
| Service.Keystone.Create | roletester/keystone_manager.py:260-264 | create appends one record, with the next id and the given arguments, to the collection of its kind and changes nothing else |
| Ensurer.EnsureFound | roletester/keystone_manager.py:265-268 | an existing name is fetched (the first record of that name, through get) and nothing is created |
| Ensurer.GetFirstMatch | roletester/keystone_manager.py:266-268 | in a directory with unique ids, get of the first match's id returns that match |
| Ensurer.EnsureCreated | roletester/keystone_manager.py:243-264 | a missing domain, project or user is created once with the next id and its kind's arguments; the parents are the caller's domain and project found by name; a user's arguments end with the sent password, and the user comes back carrying the other password |
| Ensurer.EnsureMissingRole | roletester/keystone_manager.py:247-251 | ensuring a role that does not exist raises KeyError('role') and leaves the directory as it was |
| Ensurer.EnsureAppends | roletester/keystone_manager.py:250-268 | ensure only appends, and only to the list of its own kind |
| Ensurer.EnsureValid | roletester/keystone_manager.py:250-268 | ensure keeps ids below the next id and unique within each list |
| Ensurer.EnsureIdempotent | roletester/keystone_manager.py:194-268 | once ensure returned an object, ensuring the same kind and name again returns the same record and creates nothing |
| KeystoneManagers.KeystoneManager.EnsureKeystoneResource | roletester/keystone_manager.py:194-268 | the method's result and the directory afterwards are exactly Ensure of the directory before, with 32-character passwords from the two draws |
| ManagerFacts.NewUserPasswords | roletester/keystone_manager.py:252-262 | a new user is created with a 32-character password as its last argument and handed back with a separately drawn 32-character password |
| KeystoneManagers.KeystoneManager.FindUserCredentials | roletester/keystone_manager.py:95-131 | the result, IV, credential map and directory afterwards are exactly Find of the state before (default arguments 'default', 'default', 'member') |
| ManagerFacts.FindCache | roletester/keystone_manager.py:107-131 | the IV is set and never replaced; a hit returns the stored credential and changes nothing; a successful miss adds exactly the token, with the admin client manager, which is returned; a failing miss adds nothing; no entry is removed or overwritten |
| ManagerFacts.SecondCallHits | roletester/keystone_manager.py:109-111 | after a call that returned a credential, the same call returns the same credential and changes neither the cache nor the directory |
| ManagerFacts.DomainDefaulting | roletester/keystone_manager.py:107-108 | a domain of None or '' behaves exactly like passing the project name as the domain |
| ManagerFacts.DistinctTuplesDistinctTokens | roletester/keystone_manager.py:107-110 | under one IV, distinct normalised tuples of delimiter-free byte strings get distinct cache tokens |
| ManagerFacts.DelimiterCollision | roletester/keystone_manager.py:109-110 | the delimiter is not escaped, so ('a\|b', 'c', r) and ('a', 'b\|c', r) share a token |
| ManagerFacts.ProvisionFresh | roletester/keystone_manager.py:113-128 | when none of the four test names exists, a miss appends test-domain-, test-project- (under the caller's domain) and test-user-<suffix> (under the caller's domain and project, with the sent password) with consecutive ids, then raises KeyError('role') |
| ManagerFacts.MissWithRoleSucceeds | roletester/keystone_manager.py:109-131 | when test-role-<suffix> is already listed, a miss returns the admin client manager, adds exactly the token to the map, leaves the roles alone, and the test domain, project and user are listed afterwards |
| ManagerFacts.MissWithoutRoleRaises | roletester/keystone_manager.py:113-128 | whenever test-role-<suffix> is missing, a miss raises KeyError('role'), leaves the credential map as it was and creates no role |
| ManagerFacts.EnsureAllRaisesAtRole | roletester/keystone_manager.py:114-128 | domain, project and user ensures followed by a missing role raise KeyError('role') at the role |
| ManagerFacts.EnsureAllSucceeds | roletester/keystone_manager.py:114-128 | ensuring domains, projects, users and roles that are already listed never raises, leaves the roles alone, and lists every ensured name afterwards |
| ManagerFacts.EnsureAllAppends | roletester/keystone_manager.py:114-128 | the miss branch only appends to the directory and keeps its ids unique |
| ManagerFacts.EnsureAllIdempotent | roletester/keystone_manager.py:114-128 | steps that succeeded once return the same records, without passwords, in any later directory, and create nothing |
| ManagerFacts.ProvisionIdempotent | roletester/keystone_manager.py:113-128 | once the miss branch succeeded, repeating it with the same suffix returns the same four records and creates nothing |
| ManagerFacts.FindByNameExtend | roletester/keystone_manager.py:145-151 | appending records never changes the first match of a name already present |
| ManagerFacts.FindByNameAppendOther | roletester/keystone_manager.py:145-151 | appending a record of another name never changes a lookup |
| Codec.Join | roletester/keystone_manager.py:162 | '\|'.join, defined by recursion; Codec.SplitJoin and Codec.JoinSplit prove it inverse to Split, Codec.JoinByteString that it keeps byte strings |
| Codec.Token | roletester/keystone_manager.py:154-165 | the token, defined as hex(iv + CFB-encrypt(join)); its layout, round trip and injectivity are Codec.TokenLayout, Codec.TokenRoundTrip and Codec.TokenInjective |
| Cfb.Encrypt | roletester/keystone_manager.py:164 | CFB-8 encryption under any block cipher keeps the length of the plaintext; Cfb.DecryptEncrypt proves Decrypt its inverse |
| Cfb.Decrypt | roletester/keystone_manager.py:179 | CFB-8 decryption keeps the length of the ciphertext; Cfb.DecryptEncrypt and Cfb.SelfSynchronising relate it to Encrypt |
| Directory.BuildArgs | roletester/keystone_manager.py:221-239 | build_args, defined by its recursion; what it leaves in `all` is Directory.BuildArgsAssembles |
| Ensurer.Ensure | roletester/keystone_manager.py:194-268 | _ensure_keystone_resource on the directory state, defined branch by branch; the lemmas Ensurer.EnsureFound, EnsureCreated, EnsureMissingRole, EnsureAppends, EnsureValid and EnsureIdempotent state what it does |
| Manager.NormaliseDomain | roletester/keystone_manager.py:107-108 | a domain of None or '' becomes the project, any other domain is kept |
| Manager.Steps | roletester/keystone_manager.py:113-128 | the four ensure calls of a miss in source order: three that are not roles, then the role |
| Manager.EnsureAll | roletester/keystone_manager.py:113-128 | the calls run in order and the first exception propagates; stated by the ManagerFacts.EnsureAll* lemmas |
| Manager.Provision | roletester/keystone_manager.py:112-128 | the miss branch, defined as EnsureAll over Steps; stated by ManagerFacts.ProvisionFresh and ManagerFacts.ProvisionIdempotent |
| Manager.Find | roletester/keystone_manager.py:95-131 | find_user_credentials on the cache and the directory; stated by ManagerFacts.FindCache, SecondCallHits, DomainDefaulting, MissWithRoleSucceeds and MissWithoutRoleRaises |

## Left out

- The AES block function is a parameter (`aes: (Block, Block) -> Block`). FIPS 197 itself is not modelled. Every cipher property above holds for any block function.
- Randomness enters as parameters: `Random.new().read(16)` is the `generated` block, and each run of `Random.random.choice` is a `Draw` (call i picks index `draw(i) mod 62`). Uniformity and independence are not modelled.
- KeystoneManagers.KeystoneManager.FindUserCredentials: the suffix, the sent password and the kept password come from three separate draws. In the source they are consecutive slices of one random stream.
- `load_admin_client_manager` and `clients.ClientManager` are not part of this model. The admin client manager is an opaque value given to the constructor, and `get_keystone()` is the `Keystone` object the manager holds.
- Directory.EntityExistsByType: only the four collections `domains`, `projects`, `users` and `roles` are modelled. The real keystone client has others, such as `groups` and `services`, for which line 192 returns a boolean; the model raises AttributeError for them.
- The keystone service's network I/O is an in-memory directory. `create` always succeeds and assigns the next id. Server-side rejections (a missing mandatory parent, duplicate names) are not modelled, and `get` can fail only with NotFound.
- Concurrency is not modelled: the model is single-threaded, as the source is.
- `roletests/keystone_tests.py` is not part of this model.
- Python 2 `str` is a byte string. Text is `string`, and the round trips require characters below 256. The AES key is exactly 16 such characters.
- Syntax defects are modelled by their evident intent:
  - the unclosed brackets of `get_random_string` (lines 76-78);
  - the broken password expression (lines 254-257), read as 32 alphanumeric choices;
  - `get_resource_by_name` lacking `self` and using the enclosing `ks_attr` (lines 133-151), read as a lookup in the kind's list.
- `build_args`'s mutable default `all={}` (line 221) is a fresh dict per `_ensure_keystone_resource` call, because the function is re-defined on each call. Its unused `trailing` parameter is omitted.
- The four resources the miss branch ensures are returned in a list by `Manager.Provision` only so that lemmas can speak of them. The source discards them.
