/** The backup builder: state fed by payloads, encryption, decryption. */
module Builders {
  import opened Prelude
  import opened Contents
  import opened Payload
  import opened PaddingSizes
  import opened Container
  import opened Secrets
  import opened Backup
  import opened Descriptors
  import opened Documents
  import P = Pools

  datatype Version = V0 | V1 | UnknownVersion

  datatype Encryption = Undefined | ChaCha20Poly1305 | AesGcm256 | UnknownEncryption

  function EncryptionFrom(b: byte): Encryption {
    match b
    case 0 => Undefined
    case 1 => ChaCha20Poly1305
    case _ => UnknownEncryption
  }

  datatype Payloads =
    | NoPayload
    | EncryptOne(bytes: Slice)
    | EncryptMany(items: seq<Item>)
    | ToDecrypt(ciphertext: Slice, secrets: seq<Bytes32>, nonce: Nonce)

  datatype State = State(
    version: Version, content: Content, encryption: Encryption, pool: P.Pool,
    payload: Payloads, padding: Padding, storeCommon: bool)

  const NEW: State := State(V1, Contents.Unknown, ChaCha20Poly1305, P.EMPTY, NoPayload, NoPadding, false)

  // Nonce and decoys: given by the caller, or drawn from a random source.
  datatype Entropy = Given(nonce: Nonce, decoys: seq<Bytes32>) | Drawn(tape: seq<byte>)

  datatype Encrypted = Encrypted(bytes: Slice, warnings: seq<Warning>)

  function XonlyAll(keys: seq<PublicKey>): (r: seq<Bytes32>)
    ensures |r| == |keys| && forall i :: 0 <= i < |r| ==> r[i] == Xonly(keys[i])
  {
    seq(|keys|, i requires 0 <= i < |keys| => Xonly(keys[i]))
  }

  // ----- what each call does to the state

  function WithKeys(s: State, keys: seq<PublicKey>): State {
    s.(pool := P.SetKeys(s.pool, keys))
  }

  function WithPaths(s: State, paths: seq<Path>): State {
    s.(pool := P.SetPaths(s.pool, paths))
  }

  function WithPayload(formats: Formats, s: State, doc: Document): Outcome<State> {
    var share :- ShareOf(doc);
    Done(s.(payload := EncryptOne(Print(formats, doc)),
            content := if IsKnown(ContentOf(doc)) then ContentOf(doc) else s.content,
            pool := P.SetOne(s.pool, share)))
  }

  function KnownShare(doc: Document): Outcome<P.Share> {
    if !IsKnown(ContentOf(doc)) then Failed(Failure.UnknownContent) else ShareOf(doc)
  }

  /** Shares of a list of documents; the first that has none decides. */
  function SharesOf(docs: seq<Document>): (r: Outcome<seq<P.Share>>)
    ensures r.Done? ==> |r.value| == |docs|
  {
    if docs == [] then Done([])
    else
      var n := |docs| - 1;
      var before :- SharesOf(docs[..n]);
      var share :- KnownShare(docs[n]);
      Done(before + [share])
  }

  function WithPayloads(formats: Formats, s: State, docs: seq<Document>): Outcome<State> {
    var shares :- SharesOf(docs);
    Done(s.(payload := EncryptMany(ItemsOf(formats, docs)), pool := P.SetMany(s.pool, shares)))
  }

  function EncryptItems(crypto: Crypto, entropy: Entropy, s: State, items: seq<Item>): Result<Slice> {
    var keys := XonlyAll(s.pool.keys);
    match entropy
    case Given(nonce, decoys) =>
      EncryptWithDecoys(crypto, s.pool.paths, s.storeCommon, items, keys, s.padding, nonce, decoys)
    case Drawn(tape) =>
      EncryptRandom(crypto, tape, s.pool.paths, s.storeCommon, items, keys, s.padding)
  }

  function Items(s: State): Option<seq<Item>> {
    match s.payload
    case EncryptOne(bytes) => Some([(s.content, bytes)])
    case EncryptMany(items) => Some(items)
    case _ => None
  }

  function EncryptState(crypto: Crypto, entropy: Entropy, s: State): Outcome<Encrypted> {
    if s.content.Unknown? && !s.payload.EncryptMany? then Failed(Failure.UnknownContent)
    else if s.encryption.Undefined? || s.encryption.UnknownEncryption? then Failed(EncryptionUndefined)
    else if s.version.UnknownVersion? then Failed(InvalidVersion)
    else if s.encryption != ChaCha20Poly1305 || s.version != V1 then Failed(NotImplemented)
    else
      match Items(s)
      case None => Failed(WrongPayload)
      case Some(items) =>
        if s.pool.keys == [] then Failed(NoKeysToEncryptTo)
        else
          var bytes :- FromCore(EncryptItems(crypto, entropy, s, items));
          Done(Encrypted(bytes, s.pool.warnings))
  }

  function WithEncrypted(s: State, bytes: Slice): Outcome<State> {
    var version :- FromCore(DecodeVersion(bytes));
    if version != VERSION_1 then Failed(NotImplemented)
    else
      var d :- FromCore(DecodeV1(bytes));
      Done(s.(pool := P.SetPaths(s.pool, d.paths), encryption := EncryptionFrom(d.encryption),
              payload := ToDecrypt(d.ciphertext, d.secrets, d.nonce)))
  }

  /** Items of the first key that opens the payload. */
  function FirstOpening(crypto: Crypto, keys: seq<PublicKey>, p: Payloads): Option<seq<Item>>
    requires p.ToDecrypt?
  {
    if keys == [] then None
    else
      match DecryptV1(crypto, Xonly(keys[0]), p.secrets, p.ciphertext, p.nonce)
      case Ok(items) => Some(items)
      case Err(_) => FirstOpening(crypto, keys[1..], p)
  }

  function DecryptState<V>(crypto: Crypto, formats: Formats, vendor: VendorParser<V>, s: State)
    : Outcome<seq<Extracted<V>>>
  {
    if s.pool.keys == [] then Failed(NoKey)
    else
      match s.version
      case V0 => Failed(NotImplemented)
      case UnknownVersion => Failed(Failure.UnknownVersion)
      case V1 =>
        if !s.payload.ToDecrypt? then Failed(WrongPayload)
        else if s.encryption != ChaCha20Poly1305 then Failed(UnsupportedEncryption)
        else
          match FirstOpening(crypto, s.pool.keys, s.payload)
          case Some(items) => ExtractAll(formats, vendor, items)
          case None => Failed(NoMatchingKey)
  }

  // ----- the builder

  class EncryptedBackup {
    var version: Version
    var content: Content
    var encryption: Encryption
    var derivationPaths: seq<Path>
    var keys: seq<PublicKey>
    var exposedKeys: seq<Bytes32>
    var keyPaths: seq<KeyPath>
    var warnings: seq<Warning>
    var payload: Payloads
    var padding: Padding
    var storeCommon: bool

    ghost function View(): State
      reads this
    {
      State(version, content, encryption,
            P.Pool(derivationPaths, keys, exposedKeys, keyPaths, warnings),
            payload, padding, storeCommon)
    }

    constructor ()
      ensures View() == NEW
    {
      version, content, encryption := V1, Contents.Unknown, ChaCha20Poly1305;
      derivationPaths, keys, exposedKeys, keyPaths, warnings := [], [], [], [], [];
      payload, padding, storeCommon := NoPayload, NoPadding, false;
    }

    method SetKeys(keys: seq<PublicKey>)
      modifies this
      ensures View() == WithKeys(old(View()), keys)
    {
      this.keys := keys;
      DropExposedKeys();
    }

    method SetDerivationPaths(paths: seq<Path>)
      modifies this
      ensures View() == WithPaths(old(View()), paths)
    {
      derivationPaths := paths;
    }

    method AddKeyPaths(pairs: seq<KeyPath>)
      modifies this
      ensures View() == old(View()).(pool := old(View()).pool.(
                          paths := old(derivationPaths) + P.PathsOf(pairs), keyPaths := old(keyPaths) + pairs))
    {
      var paths: seq<Path> := [];
      for i := 0 to |pairs|
        invariant paths == P.PathsOf(pairs)[..i]
      {
        paths := paths + [pairs[i].path];
      }
      derivationPaths := derivationPaths + paths;
      keyPaths := keyPaths + pairs;
    }

    method DropExposedKeys()
      modifies this
      ensures View() == old(View()).(pool := P.DropExposed(old(View()).pool))
    {
      var kept: seq<PublicKey>, warned := [], warnings;
      for i := 0 to |keys|
        invariant kept == P.RetainKeys(keys[..i], exposedKeys)
        invariant warned == P.WarnExposed(keys[..i], exposedKeys, warnings)
      {
        assert keys[..i + 1][..i] == keys[..i];
        if Xonly(keys[i]) !in exposedKeys {
          kept := kept + [keys[i]];
        } else {
          var warning := ExposedRoot(keys[i]);
          if warning !in warned {
            warned := warned + [warning];
          }
        }
      }
      assert keys[..|keys|] == keys;
      var paths := RetainedPaths(derivationPaths, keyPaths, exposedKeys);
      keys, warnings, derivationPaths := kept, warned, paths;
    }

    method SetPayload(formats: Formats, doc: Document) returns (failure: Option<Failure>)
      modifies this
      ensures match WithPayload(formats, old(View()), doc)
              case Done(s) => failure == None && View() == s
              case Failed(f) => failure == Some(f)
    {
      payload := EncryptOne(Print(formats, doc));
      if IsKnown(ContentOf(doc)) {
        content := ContentOf(doc);
      }
      var share := ShareOf(doc);
      if share.Failed? {
        return Some(share.failure);
      }
      Pour(share.value);
      DropExposedKeys();
      failure := None;
    }

    method Pour(share: P.Share)
      modifies this
      ensures View() == old(View()).(pool := P.AddShare(old(View()).pool, share))
    {
      AddKeyPaths(share.keyPaths);
      keys := keys + share.keys;
      warnings := warnings + share.warnings;
      exposedKeys := exposedKeys + share.exposed;
    }

    method SetPayloads(formats: Formats, docs: seq<Document>) returns (failure: Option<Failure>)
      modifies this
      ensures match WithPayloads(formats, old(View()), docs)
              case Done(s) => failure == None && View() == s
              case Failed(f) => failure == Some(f)
    {
      hide ShareOf, P.AddShare, P.DropExposed, Print, ContentOf, IsKnown;
      var items: seq<Item> := [];
      ghost var shares: seq<P.Share> := [];
      for i := 0 to |docs|
        invariant items == ItemsOf(formats, docs)[..i]
        invariant SharesOf(docs[..i]) == Done(shares)
        invariant View() == old(View()).(pool := P.AddAll(old(View()).pool, shares))
      {
        assert docs[..i + 1][..i] == docs[..i];
        var share := if IsKnown(ContentOf(docs[i])) then ShareOf(docs[i]) else Failed(Failure.UnknownContent);
        if share.Failed? {
          SharesStop(docs, i + 1);
          return Some(share.failure);
        }
        items := items + [(ContentOf(docs[i]), Print(formats, docs[i]))];
        Pour(share.value);
        assert (shares + [share.value])[..|shares|] == shares;
        shares := shares + [share.value];
      }
      assert docs[..|docs|] == docs;
      assert items == ItemsOf(formats, docs);
      DropExposedKeys();
      payload := EncryptMany(items);
      failure := None;
    }

    method Encrypt(crypto: Crypto, entropy: Entropy) returns (r: Outcome<Encrypted>)
      ensures r == EncryptState(crypto, entropy, View())
    {
      hide EncryptWithDecoys, EncryptRandom;
      if content.Unknown? && !payload.EncryptMany? {
        return Failed(Failure.UnknownContent);
      }
      if encryption.Undefined? || encryption.UnknownEncryption? {
        return Failed(EncryptionUndefined);
      }
      if version.UnknownVersion? {
        return Failed(InvalidVersion);
      }
      if encryption != ChaCha20Poly1305 || version != V1 {
        return Failed(NotImplemented);
      }
      if (payload.EncryptOne? || payload.EncryptMany?) && keys == [] {
        return Failed(NoKeysToEncryptTo);
      }
      var items: seq<Item>;
      match payload {
        case EncryptOne(bytes) => items := [(content, bytes)];
        case EncryptMany(many) => items := many;
        case _ => return Failed(WrongPayload);
      }
      var xonly := XonlyAll(keys);
      var bytes := match entropy
        case Given(nonce, decoys) =>
          EncryptWithDecoys(crypto, derivationPaths, storeCommon, items, xonly, padding, nonce, decoys)
        case Drawn(tape) =>
          EncryptRandom(crypto, tape, derivationPaths, storeCommon, items, xonly, padding);
      r := if bytes.Ok? then Done(Encrypted(bytes.value, warnings)) else Failed(Core(bytes.error));
    }

    method SetEncryptedPayload(bytes: Slice) returns (failure: Option<Failure>)
      modifies this
      ensures match WithEncrypted(old(View()), bytes)
              case Done(s) => failure == None && View() == s
              case Failed(f) => failure == Some(f) && View() == old(View())
    {
      hide DecodeV1, DecodeVersion;
      var version := DecodeVersion(bytes);
      if version.Err? {
        return Some(Core(version.error));
      }
      if version.value != VERSION_1 {
        return Some(NotImplemented);
      }
      var decoded := DecodeV1(bytes);
      if decoded.Err? {
        return Some(Core(decoded.error));
      }
      var d := decoded.value;
      derivationPaths := d.paths;
      encryption := EncryptionFrom(d.encryption);
      payload := ToDecrypt(d.ciphertext, d.secrets, d.nonce);
      failure := None;
    }

    method DecryptWith<V>(crypto: Crypto, formats: Formats, vendor: VendorParser<V>)
      returns (r: Outcome<seq<Extracted<V>>>)
      ensures r == DecryptState(crypto, formats, vendor, View())
    {
      hide ExtractAll;
      if keys == [] {
        return Failed(NoKey);
      }
      match version {
        case V0 => return Failed(NotImplemented);
        case UnknownVersion => return Failed(Failure.UnknownVersion);
        case V1 =>
      }
      if !payload.ToDecrypt? {
        return Failed(WrongPayload);
      }
      if encryption != ChaCha20Poly1305 {
        return Failed(UnsupportedEncryption);
      }
      for i := 0 to |keys|
        invariant FirstOpening(crypto, keys, payload) == FirstOpening(crypto, keys[i..], payload)
      {
        assert keys[i..][1..] == keys[i + 1..];
        var items := DecryptV1Loop(crypto, Xonly(keys[i]), payload.secrets, payload.ciphertext, payload.nonce);
        if items.Ok? {
          return ExtractAll(formats, vendor, items.value);
        }
      }
      r := Failed(NoMatchingKey);
    }
  }

  lemma {:induction false} SharesStop(docs: seq<Document>, n: nat)
    requires n <= |docs| && SharesOf(docs[..n]).Failed?
    ensures SharesOf(docs) == SharesOf(docs[..n])
    decreases |docs|
  {
    hide KnownShare;
    if n == |docs| {
      assert docs[..n] == docs;
    } else {
      var m := |docs| - 1;
      assert docs[..m][..n] == docs[..n];
      SharesStop(docs[..m], n);
    }
  }

  /** Split the pairs by whether their key is exposed, and keep the paths that remain useful. */
  method RetainedPaths(paths: seq<Path>, keyPaths: seq<KeyPath>, exposed: seq<Bytes32>) returns (r: seq<Path>)
    ensures r == P.RetainPaths(paths, keyPaths, exposed)
  {
    hide Xonly;
    var kept: seq<Path>, dropped: seq<Path> := [], [];
    for i := 0 to |keyPaths|
      invariant forall p :: p in kept <==> P.Kept(keyPaths[..i], exposed, p)
      invariant forall p :: p in dropped <==> P.Dropped(keyPaths[..i], exposed, p)
    {
      var before := keyPaths[..i];
      assert keyPaths[..i + 1] == before + [keyPaths[i]];
      forall p: Path {
        PartitionNext(before, keyPaths[i], exposed, p);
      }
      if Xonly(keyPaths[i].key) !in exposed {
        kept := kept + [keyPaths[i].path];
      } else {
        dropped := dropped + [keyPaths[i].path];
      }
    }
    assert keyPaths[..|keyPaths|] == keyPaths;
    r := [];
    for i := 0 to |paths|
      invariant r == P.RetainPaths(paths[..i], keyPaths, exposed)
    {
      assert paths[..i + 1][..i] == paths[..i];
      if paths[i] in kept || paths[i] !in dropped {
        r := r + [paths[i]];
      }
    }
    assert paths[..|paths|] == paths;
  }

  lemma PartitionNext(before: seq<KeyPath>, kp: KeyPath, exposed: seq<Bytes32>, path: Path)
    ensures P.Kept(before + [kp], exposed, path) <==>
            P.Kept(before, exposed, path) || (kp.path == path && Xonly(kp.key) !in exposed)
    ensures P.Dropped(before + [kp], exposed, path) <==>
            P.Dropped(before, exposed, path) || (kp.path == path && Xonly(kp.key) in exposed)
  {
    hide Xonly;
    var all := before + [kp];
    assert forall i :: 0 <= i < |before| ==> all[i] == before[i];
    assert all[|before|] == kp;
  }
}
