/** The cache token: `'|'.join(args)`, encrypted in CFB mode with a fixed key and the
    stored IV, prefixed with that IV and hex-encoded (KeystoneManager._encode_hash),
    and its inverse (KeystoneManager._decode_hash). */
module Codec {
  import opened Wrappers
  import opened Bytes
  import Hex
  import opened Cfb

  const Delimiter: char := '|'

  /** str.join with '|'. */
  function Join(parts: seq<string>): string {
    if parts == [] then ""
    else if |parts| == 1 then parts[0]
    else parts[0] + [Delimiter] + Join(parts[1..])
  }

  /** Joining byte strings gives a byte string. */
  lemma {:induction false} JoinByteString(parts: seq<string>)
    requires forall i :: 0 <= i < |parts| ==> IsByteString(parts[i])
    ensures IsByteString(Join(parts))
  {
    if |parts| > 1 {
      JoinByteString(parts[1..]);
    }
  }

  /** str.split('|'): the maximal delimiter-free runs, so there is always at least one part. */
  function Split(text: string): (parts: seq<string>)
    ensures |parts| >= 1
    ensures forall i :: 0 <= i < |parts| ==> Delimiter !in parts[i]
    decreases |text|
  {
    if text == [] then [""]
    else
      var rest := Split(text[1..]);
      if text[0] == Delimiter then [""] + rest
      else [[text[0]] + rest[0]] + rest[1..]
  }

  /** Splitting text that begins with a delimiter-free run glues that run onto the first part. */
  lemma {:induction false} SplitPrefix(run: string, text: string)
    requires Delimiter !in run
    ensures Split(run + text) == [run + Split(text)[0]] + Split(text)[1..]
    decreases |run|
  {
    if run == [] {
      assert run + text == text && run + Split(text)[0] == Split(text)[0];
      assert [Split(text)[0]] + Split(text)[1..] == Split(text);
    } else {
      var t := run + text;
      assert t[0] == run[0] && t[1..] == run[1..] + text;
      SplitPrefix(run[1..], text);
      assert [run[0]] + (run[1..] + Split(text)[0]) == run + Split(text)[0];
    }
  }

  /** Splitting undoes joining of delimiter-free parts. */
  lemma {:induction false} SplitJoin(parts: seq<string>)
    requires |parts| >= 1
    requires forall i :: 0 <= i < |parts| ==> Delimiter !in parts[i]
    ensures Split(Join(parts)) == parts
  {
    if |parts| == 1 {
      SplitPrefix(parts[0], "");
      assert parts[0] + "" == parts[0];
    } else {
      var rest := Join(parts[1..]);
      assert Join(parts) == parts[0] + ([Delimiter] + rest);
      SplitPrefix(parts[0], [Delimiter] + rest);
      assert ([Delimiter] + rest)[1..] == rest;
      SplitJoin(parts[1..]);
      assert parts[0] + "" == parts[0];
      assert [parts[0]] + parts[1..] == parts;
    }
  }

  /** Join of two or more parts. */
  lemma JoinCons(parts: seq<string>)
    requires |parts| > 1
    ensures Join(parts) == parts[0] + [Delimiter] + Join(parts[1..])
  {
  }

  /** Regrouping a character glued in front of two delimited runs. */
  lemma ConsJoined(c: char, head: string, tail: string)
    ensures ([c] + head) + [Delimiter] + tail == [c] + (head + [Delimiter] + tail)
  {
  }

  /** Gluing a character onto the first part glues it onto the joined text. */
  lemma JoinGlue(c: char, parts: seq<string>)
    requires |parts| >= 1
    ensures Join([[c] + parts[0]] + parts[1..]) == [c] + Join(parts)
  {
    var glued := [[c] + parts[0]] + parts[1..];
    assert glued[0] == [c] + parts[0] && glued[1..] == parts[1..];
    if |parts| == 1 {
      assert glued == [[c] + parts[0]];
    } else {
      var tail := Join(parts[1..]);
      JoinCons(parts);
      JoinCons(glued);
      ConsJoined(c, parts[0], tail);
    }
  }

  /** One step of JoinSplit: if the tail of the text survives, so does the text. */
  lemma JoinSplitStep(text: string)
    requires text != [] && Join(Split(text[1..])) == text[1..]
    ensures Join(Split(text)) == text
  {
    var rest := Split(text[1..]);
    if text[0] == Delimiter {
      assert Split(text) == [""] + rest;
      assert ([""] + rest)[1..] == rest;
    } else {
      assert Split(text) == [[text[0]] + rest[0]] + rest[1..];
      JoinGlue(text[0], rest);
    }
    assert [text[0]] + text[1..] == text;
  }

  /** Joining a split restores the text, so Join and Split are inverse bijections
      between strings and non-empty lists of delimiter-free strings. */
  lemma {:induction false} JoinSplit(text: string)
    ensures Join(Split(text)) == text
    decreases |text|
  {
    if text != [] {
      JoinSplit(text[1..]);
      JoinSplitStep(text);
    }
  }

  /** Python slicing s[n:]: empty when s is shorter than n. */
  function Drop(s: seq<byte>, n: nat): (r: seq<byte>)
    ensures |r| == if |s| <= n then 0 else |s| - n
  {
    if |s| <= n then [] else s[n..]
  }

  /** hex(iv + AES-CFB(key, iv).encrypt('|'.join(args))). */
  function Token(aes: BlockCipher, key: Block, iv: Block, args: seq<string>): string {
    Hex.Encode(iv + Encrypt(aes, key, iv, ToBytes(Join(args))))
  }

  /** AES-CFB(key, iv).decrypt(unhex(token))[16:].split('|'); a malformed hex string raises TypeError. */
  function DecodeToken(aes: BlockCipher, key: Block, iv: Block, token: string): (r: Result<seq<string>>)
    ensures r.Ok? <==> Hex.Decode(token).Ok?
    ensures r.Ok? ==> |r.value| >= 1
  {
    match Hex.Decode(token)
    case Err(e) => Err(e)
    case Ok(message) => Ok(Split(FromBytes(Drop(Decrypt(aes, key, iv, message), |iv|))))
  }

  /** The token is the hex of the IV followed by one hex pair per byte of the joined text. */
  lemma TokenLayout(aes: BlockCipher, key: Block, iv: Block, args: seq<string>)
    ensures |Token(aes, key, iv, args)| == 2 * (16 + |Join(args)|)
    ensures Token(aes, key, iv, args)[..32] == Hex.Encode(iv)
  {
    var cipher := Encrypt(aes, key, iv, ToBytes(Join(args)));
    Hex.EncodeAppend(iv, cipher);
  }

  /** Arguments a token can carry faithfully: at least one, each a byte string without '|'. */
  predicate Encodable(args: seq<string>) {
    |args| >= 1 && forall i :: 0 <= i < |args| ==> IsByteString(args[i]) && Delimiter !in args[i]
  }

  /** Decoding a token with the IV it was made with gives back the arguments. */
  lemma TokenRoundTrip(aes: BlockCipher, key: Block, iv: Block, args: seq<string>)
    requires Encodable(args)
    ensures DecodeToken(aes, key, iv, Token(aes, key, iv, args)) == Ok(args)
  {
    var text := Join(args);
    JoinByteString(args);
    var cipher := Encrypt(aes, key, iv, ToBytes(text));
    Hex.DecodeEncode(iv + cipher);
    SelfSynchronising(aes, key, iv, ToBytes(text));
    assert Drop(Decrypt(aes, key, iv, iv + cipher), |iv|) == ToBytes(text);
    FromToBytes(text);
    SplitJoin(args);
  }

  /** With one IV, distinct encodable argument lists never share a token. */
  lemma TokenInjective(aes: BlockCipher, key: Block, iv: Block, a: seq<string>, b: seq<string>)
    requires Encodable(a) && Encodable(b)
    requires Token(aes, key, iv, a) == Token(aes, key, iv, b)
    ensures a == b
  {
    TokenRoundTrip(aes, key, iv, a);
    TokenRoundTrip(aes, key, iv, b);
  }
}
