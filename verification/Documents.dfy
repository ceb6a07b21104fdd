/** What a backup carries: documents, their bytes and keys, and how they are read back. */
module Documents {
  import opened Prelude
  import opened Contents
  import opened Payload
  import opened Container
  import opened Backup
  import opened Descriptors
  import opened PolicyBackups
  import opened Pools

  // The builder's own failures; those of the core are wrapped.
  datatype Failure =
    | Core(error: Error) | NotUtf8 | BadDocument | NotImplemented | UnknownContent
    | EncryptionUndefined | UnsupportedEncryption | InvalidVersion | WrongPayload
    | UnknownVersion | NoKey | NoMatchingKey | NoKeysToEncryptTo

  datatype Outcome<+T> = Done(value: T) | Failed(failure: Failure) {
    predicate IsFailure() {
      Failed?
    }

    function PropagateFailure<U>(): Outcome<U>
      requires Failed?
    {
      Failed(failure)
    }

    function Extract(): T
      requires Done?
    {
      value
    }
  }

  function FromCore<T>(r: Result<T>): Outcome<T> {
    match r
    case Ok(v) => Done(v)
    case Err(e) => Failed(Core(e))
  }

  datatype DescriptorSet = DescriptorSet(
    descriptor: Descriptor, change: Option<Descriptor>,
    archived: bool, range: Option<(u32, u32)>, birthTime: Option<u64>)

  datatype DescriptorBackup = DescriptorBackup(version: u32, sets: seq<DescriptorSet>)

  predicate IsMultipath(d: Descriptor) {
    exists i :: 0 <= i < |Keys(d)| && Keys(d)[i].MultiXPub?
  }

  predicate ValidDescriptorBackup(b: DescriptorBackup) {
    && b.version == VERSION && b.sets != []
    && forall i :: 0 <= i < |b.sets| ==> !(IsMultipath(b.sets[i].descriptor) && b.sets[i].change.Some?)
  }

  function BackupKeys(sets: seq<DescriptorSet>): seq<DescriptorKey> {
    if sets == [] then []
    else
      Keys(sets[0].descriptor)
      + (match sets[0].change case Some(d) => Keys(d) case None => [])
      + BackupKeys(sets[1..])
  }

  datatype Document =
    | RawDoc(bytes: Slice)
    | NoteDoc(text: Slice)
    | WrappedDoc(bytes: Slice)
    | DescriptorDoc(descriptor: Descriptor)
    | DescriptorsDoc(descriptors: DescriptorBackup)
    | PolicyDoc(policies: PolicyBackup)

  // Text formats of other libraries. A parser finds nothing in text it rejects.
  datatype Formats = Formats(
    isUtf8: Slice -> bool,
    printDescriptor: Descriptor -> Slice, parseDescriptor: Slice -> Option<Descriptor>,
    printDescriptors: DescriptorBackup -> Slice, parseDescriptors: Slice -> Option<DescriptorBackup>,
    printPolicies: PolicyBackup -> Slice, parsePolicies: Slice -> Option<PolicyBackup>)

  function ContentOf(doc: Document): Content {
    match doc
    case RawDoc(_) => Contents.Unknown
    case NoteDoc(_) => Text
    case WrappedDoc(_) => Bip138
    case DescriptorDoc(_) => Bip380
    case DescriptorsDoc(_) => Bip380
    case PolicyDoc(_) => Bip388
  }

  function Print(formats: Formats, doc: Document): Slice {
    match doc
    case RawDoc(b) => b
    case NoteDoc(t) => t
    case WrappedDoc(b) => b
    case DescriptorDoc(d) => formats.printDescriptor(d)
    case DescriptorsDoc(b) => formats.printDescriptors(b)
    case PolicyDoc(b) => formats.printPolicies(b)
  }

  // ----- what a document adds to the pool

  function RootPath(key: DescriptorKey): Option<KeyPath> {
    match (RootKey(key), DerivPath(key))
    case (Some(pk), Some(path)) => Some(KeyPath(pk, path))
    case _ => None
  }

  function PolicyWarning(key: DescriptorKey): Option<Warning> {
    match RootKey(key)
    case Some(pk) => if Xonly(pk) == NUMS_XONLY then Some(NumsKey(key)) else None
    case None => None
  }

  function ShareOfKeys(keys: seq<DescriptorKey>): Share {
    Share(EncryptionKeyPaths(keys), EncryptionRoots(keys), DescriptorWarnings(keys), ExposedKeys(keys))
  }

  /** Keys, paths, warnings and exposed coordinates of a document; a policy must validate. */
  function ShareOf(doc: Document): Outcome<Share> {
    match doc
    case DescriptorDoc(d) => Done(ShareOfKeys(Keys(d)))
    case DescriptorsDoc(b) =>
      var s := ShareOfKeys(BackupKeys(b.sets));
      Done(s.(warnings := Once(s.warnings)))
    case PolicyDoc(b) =>
      (match SeedKeys(b)
       case None => Failed(BadDocument)
       case Some(keys) =>
         var all := AllKeys(b.sets);
         Done(Share(CanonKeyPaths(FilterMap(RootPath, all)), keys, Once(FilterMap(PolicyWarning, all)), [])))
    case _ => Done(Share([], [], [], []))
  }

  // ----- reading items back

  datatype Extracted<+V> =
    | DescriptorRead(descriptor: Descriptor)
    | DescriptorsRead(descriptors: DescriptorBackup)
    | PolicyRead(policies: PolicyBackup)
    | NoteRead(text: Slice)
    | WrappedRead(bytes: Slice)
    | RawRead(bytes: Slice)
    | VendorRead(value: V)

  type VendorParser<!V> = (Slice, Slice) -> Option<Outcome<V>>

  /** Opts out of vendor content. */
  function NoVendor(tag: Slice, bytes: Slice): Option<Outcome<()>> {
    None
  }

  function ExtractDescriptor<V>(formats: Formats, bytes: Slice): Outcome<Extracted<V>> {
    if !formats.isUtf8(bytes) then Failed(NotUtf8)
    else
      match formats.parseDescriptor(bytes)
      case Some(d) => Done(DescriptorRead(d))
      case None =>
        match formats.parseDescriptors(bytes)
        case Some(b) => if ValidDescriptorBackup(b) then Done(DescriptorsRead(b)) else Failed(BadDocument)
        case None => Failed(BadDocument)
  }

  function ExtractPolicy<V>(formats: Formats, bytes: Slice): Outcome<Extracted<V>> {
    if !formats.isUtf8(bytes) then Failed(NotUtf8)
    else
      match formats.parsePolicies(bytes)
      case Some(b) => if Valid(b) then Done(PolicyRead(b)) else Failed(BadDocument)
      case None => Failed(BadDocument)
  }

  /** One item read back; nothing when its content type has no parser. */
  function ExtractItem<V>(formats: Formats, vendor: VendorParser<V>, item: Item): Option<Outcome<Extracted<V>>> {
    var bytes := item.1;
    match item.0
    case NoContent | Unknown => Some(Done(RawRead(bytes)))
    case Text => Some(if formats.isUtf8(bytes) then Done(NoteRead(bytes)) else Failed(NotUtf8))
    case Bip138 => Some(Done(WrappedRead(bytes)))
    case Bip380 => Some(ExtractDescriptor(formats, bytes))
    case Bip388 => Some(ExtractPolicy(formats, bytes))
    case Bip139 | Bip329 | Bip(_) => None
    case Proprietary(tag) =>
      match vendor(tag, bytes)
      case None => None
      case Some(Done(v)) => Some(Done(VendorRead(v)))
      case Some(Failed(f)) => Some(Failed(f))
  }

  /** Items without a parser are skipped; the first that fails to parse decides. */
  function ExtractAll<V>(formats: Formats, vendor: VendorParser<V>, items: seq<Item>): Outcome<seq<Extracted<V>>> {
    if items == [] then Done([])
    else
      match ExtractItem(formats, vendor, items[0])
      case None => ExtractAll(formats, vendor, items[1..])
      case Some(Failed(f)) => Failed(f)
      case Some(Done(x)) =>
        var rest :- ExtractAll(formats, vendor, items[1..]);
        Done([x] + rest)
  }

  /** An item without a parser takes nothing away from the items around it. */
  lemma {:induction false} UnparsedSkipped<V>(
    formats: Formats, vendor: VendorParser<V>, before: seq<Item>, item: Item, after: seq<Item>)
    requires || item.0.Bip139? || item.0.Bip329? || item.0.Bip?
             || (item.0.Proprietary? && vendor(item.0.tag, item.1).None?)
    ensures ExtractAll(formats, vendor, before + [item] + after) == ExtractAll(formats, vendor, before + after)
  {
    hide ExtractDescriptor, ExtractPolicy;
    var all, rest := before + [item] + after, before + after;
    if before == [] {
      assert all[0] == item && all[1..] == after == rest;
    } else {
      assert all[0] == before[0] == rest[0];
      assert all[1..] == before[1..] + [item] + after && rest[1..] == before[1..] + after;
      UnparsedSkipped(formats, vendor, before[1..], item, after);
    }
  }

  /** The first item whose parser fails decides the failure, whatever stands around it. */
  lemma {:induction false} FirstFailureDecides<V>(
    formats: Formats, vendor: VendorParser<V>, items: seq<Item>, i: nat, f: Failure)
    requires i < |items| && ExtractItem(formats, vendor, items[i]) == Some(Failed(f))
    requires forall j :: 0 <= j < i ==> !FailsToParse(formats, vendor, items[j])
    ensures ExtractAll(formats, vendor, items) == Failed(f)
  {
    hide ExtractItem;
    if i > 0 {
      assert !FailsToParse(formats, vendor, items[0]);
      assert forall j :: 0 <= j < i - 1 ==> items[1..][j] == items[j + 1];
      FirstFailureDecides(formats, vendor, items[1..], i - 1, f);
    }
  }

  predicate FailsToParse<V>(formats: Formats, vendor: VendorParser<V>, item: Item) {
    match ExtractItem(formats, vendor, item)
    case Some(Failed(_)) => true
    case _ => false
  }

  /** `at` tells which items have a parser; `found` are their values, in order. */
  ghost predicate FoundAt<V(!new)>(
    formats: Formats, vendor: VendorParser<V>, items: seq<Item>, found: seq<Extracted<V>>, at: seq<nat>)
  {
    && |at| == |found|
    && (forall j, k :: 0 <= j < k < |at| ==> at[j] < at[k])
    && (forall j :: 0 <= j < |at| ==>
          at[j] < |items| && ExtractItem(formats, vendor, items[at[j]]) == Some(Done(found[j])))
    && (forall i :: 0 <= i < |items| && ExtractItem(formats, vendor, items[i]).Some? ==> i in at)
  }

  function Shifted(at: seq<nat>): (r: seq<nat>)
    ensures |r| == |at| && forall j :: 0 <= j < |r| ==> r[j] == at[j] + 1
  {
    seq(|at|, j requires 0 <= j < |at| => at[j] + 1)
  }

  lemma ShiftedHolds(at: seq<nat>, x: nat)
    ensures x in at ==> x + 1 in Shifted(at)
  {
    if x in at {
      var j :| 0 <= j < |at| && at[j] == x;
      assert Shifted(at)[j] == x + 1;
    }
  }

  lemma FoundSkipped<V(!new)>(
    formats: Formats, vendor: VendorParser<V>, items: seq<Item>, found: seq<Extracted<V>>, at: seq<nat>)
    requires items != [] && FoundAt(formats, vendor, items[1..], found, at)
    requires ExtractItem(formats, vendor, items[0]).None?
    ensures FoundAt(formats, vendor, items, found, Shifted(at))
  {
    hide ExtractItem, Shifted;
    forall i | 0 <= i < |items| && ExtractItem(formats, vendor, items[i]).Some? ensures i in Shifted(at) {
      assert items[1..][i - 1] == items[i];
      ShiftedHolds(at, i - 1);
    }
  }

  lemma FoundFirst<V(!new)>(
    formats: Formats, vendor: VendorParser<V>, items: seq<Item>, found: seq<Extracted<V>>, at: seq<nat>,
    x: Extracted<V>)
    requires items != [] && FoundAt(formats, vendor, items[1..], found, at)
    requires ExtractItem(formats, vendor, items[0]) == Some(Done(x))
    ensures FoundAt(formats, vendor, items, [x] + found, [0] + Shifted(at))
  {
    hide ExtractItem, Shifted;
    forall i | 0 < i < |items| && ExtractItem(formats, vendor, items[i]).Some? ensures i in Shifted(at) {
      assert items[1..][i - 1] == items[i];
      ShiftedHolds(at, i - 1);
    }
  }

  /** With no such item, what is extracted is the value of every item that has a parser, in order. */
  lemma {:induction false} AllOthersExtracted<V(!new)>(formats: Formats, vendor: VendorParser<V>, items: seq<Item>)
    returns (at: seq<nat>)
    requires forall j :: 0 <= j < |items| ==> !FailsToParse(formats, vendor, items[j])
    ensures ExtractAll(formats, vendor, items).Done?
    ensures FoundAt(formats, vendor, items, ExtractAll(formats, vendor, items).value, at)
  {
    hide ExtractItem, Shifted;
    if items == [] {
      at := [];
    } else {
      hide FoundAt;
      var rest := items[1..];
      assert forall j :: 0 <= j < |rest| ==> rest[j] == items[j + 1];
      at := AllOthersExtracted(formats, vendor, rest);
      var found := ExtractAll(formats, vendor, rest).value;
      assert !FailsToParse(formats, vendor, items[0]);
      match ExtractItem(formats, vendor, items[0])
      case None =>
        FoundSkipped(formats, vendor, items, found, at);
        at := Shifted(at);
      case Some(Done(x)) =>
        FoundFirst(formats, vendor, items, found, at, x);
        at := [0] + Shifted(at);
    }
  }

  // ----- documents that survive the trip

  /** The formats read this document back from what they print. */
  predicate Readable(formats: Formats, doc: Document) {
    var bytes := Print(formats, doc);
    match doc
    case RawDoc(_) => false
    case NoteDoc(_) => formats.isUtf8(bytes)
    case WrappedDoc(_) => true
    case DescriptorDoc(d) => formats.isUtf8(bytes) && formats.parseDescriptor(bytes) == Some(d)
    case DescriptorsDoc(b) =>
      && formats.isUtf8(bytes) && formats.parseDescriptor(bytes) == None
      && formats.parseDescriptors(bytes) == Some(b) && ValidDescriptorBackup(b)
    case PolicyDoc(b) => formats.isUtf8(bytes) && formats.parsePolicies(bytes) == Some(b) && Valid(b)
  }

  function ReadBack<V>(doc: Document): Extracted<V> {
    match doc
    case RawDoc(b) => RawRead(b)
    case NoteDoc(t) => NoteRead(t)
    case WrappedDoc(b) => WrappedRead(b)
    case DescriptorDoc(d) => DescriptorRead(d)
    case DescriptorsDoc(b) => DescriptorsRead(b)
    case PolicyDoc(b) => PolicyRead(b)
  }

  function ItemsOf(formats: Formats, docs: seq<Document>): (r: seq<Item>)
    ensures |r| == |docs|
    ensures forall i :: 0 <= i < |r| ==> r[i] == (ContentOf(docs[i]), Print(formats, docs[i]))
  {
    seq(|docs|, i requires 0 <= i < |docs| => (ContentOf(docs[i]), Print(formats, docs[i])))
  }

  function ReadBackAll<V>(docs: seq<Document>): (r: seq<Extracted<V>>)
    ensures |r| == |docs|
    ensures forall i :: 0 <= i < |r| ==> r[i] == ReadBack(docs[i])
  {
    seq(|docs|, i requires 0 <= i < |docs| => ReadBack(docs[i]))
  }

  lemma DocumentComesBack<V>(formats: Formats, vendor: VendorParser<V>, doc: Document)
    requires Readable(formats, doc)
    ensures ExtractItem(formats, vendor, (ContentOf(doc), Print(formats, doc))) == Some(Done(ReadBack<V>(doc)))
  {
    hide Valid, ValidDescriptorBackup;
  }

  /** Documents that survive the trip one by one come back together, in order. */
  lemma {:induction false} DocumentsComeBack<V>(formats: Formats, vendor: VendorParser<V>, docs: seq<Document>)
    requires forall i :: 0 <= i < |docs| ==> Readable(formats, docs[i])
    ensures NormalItems(ItemsOf(formats, docs)) == ItemsOf(formats, docs)
    ensures ExtractAll(formats, vendor, ItemsOf(formats, docs)) == Done(ReadBackAll<V>(docs))
  {
    hide Valid, ValidDescriptorBackup, Print, ReadBack, ExtractItem;
    var items := ItemsOf(formats, docs);
    assert forall i :: 0 <= i < |docs| ==> Normal(ContentOf(docs[i])) == ContentOf(docs[i]);
    if docs != [] {
      var rest := docs[1..];
      DocumentsComeBack(formats, vendor, rest);
      assert items[1..] == ItemsOf(formats, rest);
      DocumentComesBack(formats, vendor, docs[0]);
      assert ReadBackAll<V>(docs) == [ReadBack(docs[0])] + ReadBackAll<V>(rest);
    }
  }

  /** Documents never bring the warning the builder itself raises. */
  lemma DocumentsAreQuiet(doc: Document)
    requires ShareOf(doc).Done?
    ensures QuietShare(ShareOf(doc).value)
  {
    hide SeedKeys, AllKeys, BackupKeys, Keys, EncryptionKeyPaths, EncryptionRoots, ExposedKeys, CanonKeyPaths, RootPath;
  }
}
