/**
 * The life of an object: uploads, conversions, downloads, crashes and restarts, interleaved step by step.
 * No step makes an object that was stored once unavailable.
 */
module Protocol {
  import opened Bytes
  import opened Primitives
  import opened Merkle
  import opened Chunking
  import Compression
  import opened XorbVerify
  import opened XorbProperties
  import opened XorbBuilder
  import opened XorbRoundTrip
  import opened ShardParser
  import SB = ShardBuilder
  import opened Reconstruction
  import opened Index
  import opened Validation
  import opened Rebuild
  import opened Conversion
  import opened EndToEnd

  datatype System = System(env: Env, gear: Gear, settings: Settings)

  /** Where a conversion stands after each of its atomic steps. */
  datatype Flight =
    | NoConversion
    | RawRead(oid: Hash, data: Bytes)
    | XorbChecked(oid: Hash, data: Bytes, present: bool)
    | XorbStored(oid: Hash, data: Bytes)
    | ShardStored(oid: Hash, data: Bytes)
    | Registered(oid: Hash)

  /** `owed` records whether the object had been acknowledged before the download was asked for. */
  datatype Download =
    | NoDownload
    | Asked(oid: Hash, owed: bool)
    | RawSeen(oid: Hash, owed: bool)
    | RawMissing(oid: Hash, owed: bool)
    | RefsFound(oid: Hash, refs: seq<FileRef>, owed: bool)
    | Served(oid: Hash, bytes: Bytes)
    | Failed(oid: Hash, owed: bool)

  /**
   * Histories: `promised` holds all raw blobs ever stored, and uploads are only acknowledged for those; `registered`
   * holds the hashes of all files of shards whose upload was acknowledged.
   */
  datatype State = State(storage: Storage, index: IndexState, up: bool, promised: map<Hash, Bytes>,
                         registered: set<Hash>, conversions: seq<Flight>, downloads: seq<Download>)

  datatype Action =
    | PutRaw(newOid: Hash, newData: Bytes)
    | PutXorb(key: Hash, xorb: Bytes)
    | PutShard(shard: Bytes)
    | RegisterShard(id: Hash)
    | StartConversion(c: nat, target: Hash)
    | CheckXorb(c: nat)
    | WriteXorb(c: nat)
    | WriteShard(c: nat)
    | RegisterConversion(c: nat)
    | DeleteRaw(c: nat)
    | Abandon(c: nat)
    | Ask(d: nat, wanted: Hash)
    | CheckRaw(d: nat)
    | ReadRaw(d: nat)
    | LookUp(d: nat)
    | Reconstruct(d: nat)
    | EndDownload(d: nat)
    | Crash
    | Restart(listing: seq<Hash>)
  {
    predicate OfClient() { PutRaw? || PutXorb? || PutShard? || RegisterShard? }

    predicate OfConversion() {
      StartConversion? || CheckXorb? || WriteXorb? || WriteShard? || RegisterConversion? || DeleteRaw? || Abandon?
    }

    predicate OfDownload() { Ask? || CheckRaw? || ReadRaw? || LookUp? || Reconstruct? || EndDownload? }
  }

  // ----- what a conversion writes -----

  function RawsOf(sys: System, data: Bytes): seq<Bytes>
    requires Lawful(sys.gear)
  {
    Pieces(sys.gear, DEFAULT_CONFIG, data)
  }

  function XorbOf(sys: System, data: Bytes): Bytes
    requires Lawful(sys.gear)
  {
    XorbBytes(sys.env, sys.settings.scheme, RawsOf(sys, data))
  }

  function XorbKeyOf(sys: System, data: Bytes): Hash
    requires Lawful(sys.gear)
  {
    XorbHashFor(sys.env, sys.settings.scheme, RawsOf(sys, data))
  }

  function ShardOf(sys: System, oid: Hash, data: Bytes): Bytes
    requires Lawful(sys.gear)
  {
    SB.BuildBytes(ContentsFor(sys.env, sys.settings.scheme, oid, RawsOf(sys, data)))
  }

  function RegistrationOf(sys: System, oid: Hash, data: Bytes): Registration
    requires Lawful(sys.gear)
  {
    RegistrationFor(sys.env, sys.settings.scheme, oid, RawsOf(sys, data), |data|)
  }

  // ----- steps -----

  predicate ClientEnabled(sys: System, s: State, a: Action)
    requires a.OfClient()
  {
    s.up &&
    match a
    case PutRaw(oid, data) => Named(sys.env, oid, data)
    case PutXorb(key, xorb) => XorbGenuine(sys.env, key, xorb)
    case PutShard(shard) => ShardValid(sys.env, s.storage, shard)
    case RegisterShard(id) => ShardOutcome(sys.env, s.storage, id).Some?
  }

  function ClientStep(sys: System, s: State, a: Action): State
    requires a.OfClient() && ClientEnabled(sys, s, a)
  {
    match a
    case PutRaw(oid, data) =>
      s.(storage := s.storage.(raw := s.storage.raw[oid := data]), promised := s.promised[oid := data])
    case PutXorb(key, xorb) => s.(storage := s.storage.(xorbs := s.storage.xorbs[key := xorb]))
    case PutShard(shard) => s.(storage := StoreShard(s.storage, sys.env.DataHash(shard), shard))
    case RegisterShard(id) =>
      var reg := ShardOutcome(sys.env, s.storage, id).value;
      s.(index := Register(s.index, reg),
         registered := if Accepts(s.index, reg) then s.registered + FilesOf(reg) else s.registered)
  }

  /** The hashes of the files of a shard. */
  function FilesOf(reg: Registration): set<Hash> { set i | 0 <= i < |reg.files| :: reg.files[i].fileHash }

  /** The file verifier accepts the bytes and finds this hash. */
  predicate XorbGenuine(env: Env, key: Hash, xorb: Bytes) {
    VerifyFile(env, xorb).Ok? && VerifyFile(env, xorb).value.xorbHash == key
  }

  /** The shard parses and passes validation against the stored xorbs. */
  predicate ShardValid(env: Env, st: Storage, shard: Bytes) {
    Parse(shard).Ok? && Validate(env, env.DataHash(shard), Parse(shard).value, st.xorbs).Ok?
  }

  predicate ConversionEnabled(sys: System, s: State, a: Action)
    requires a.OfConversion()
  {
    s.up && a.c < |s.conversions| &&
    match a
    case StartConversion(c, oid) => s.conversions[c].NoConversion? && Convertible(sys.settings, s.storage, oid)
    case CheckXorb(c) => s.conversions[c].RawRead?
    case WriteXorb(c) => s.conversions[c].XorbChecked?
    case WriteShard(c) => s.conversions[c].XorbStored?
    case RegisterConversion(c) => s.conversions[c].ShardStored?
    case DeleteRaw(c) => s.conversions[c].Registered?
    case Abandon(_) => true
  }

  function ConversionStorage(sys: System, s: State, a: Action): Storage
    requires Lawful(sys.gear) && a.OfConversion() && ConversionEnabled(sys, s, a)
  {
    match a
    case WriteXorb(c) =>
      var v := s.conversions[c];
      if v.present then s.storage
      else s.storage.(xorbs := s.storage.xorbs[XorbKeyOf(sys, v.data) := XorbOf(sys, v.data)])
    case WriteShard(c) =>
      var v := s.conversions[c];
      var shard := ShardOf(sys, v.oid, v.data);
      if Parse(shard).Ok? then StoreShard(s.storage, sys.env.DataHash(shard), shard) else s.storage
    case DeleteRaw(c) => if sys.settings.deleteRaw then DropRaw(s.storage, s.conversions[c].oid) else s.storage
    case _ => s.storage
  }

  function ConversionIndex(sys: System, s: State, a: Action): IndexState
    requires Lawful(sys.gear) && a.OfConversion() && ConversionEnabled(sys, s, a)
  {
    match a
    case RegisterConversion(c) => Register(s.index, RegistrationOf(sys, s.conversions[c].oid, s.conversions[c].data))
    case _ => s.index
  }

  /** Where the conversion goes; a failed check ends it with the raw blob in place. */
  function ConversionNext(sys: System, s: State, a: Action): Flight
    requires Lawful(sys.gear) && a.OfConversion() && ConversionEnabled(sys, s, a)
  {
    match a
    case StartConversion(c, oid) => RawRead(oid, s.storage.raw[oid])
    case CheckXorb(c) =>
      var v := s.conversions[c];
      if VerifyMemory(sys.env, XorbOf(sys, v.data)) == Accepted then
        XorbChecked(v.oid, v.data, XorbKeyOf(sys, v.data) in s.storage.xorbs)
      else NoConversion
    case WriteXorb(c) => XorbStored(s.conversions[c].oid, s.conversions[c].data)
    case WriteShard(c) =>
      var v := s.conversions[c];
      if Parse(ShardOf(sys, v.oid, v.data)).Ok? then ShardStored(v.oid, v.data) else NoConversion
    case RegisterConversion(c) =>
      var v := s.conversions[c];
      if Accepts(s.index, RegistrationOf(sys, v.oid, v.data)) then Registered(v.oid) else NoConversion
    case DeleteRaw(_) => NoConversion
    case Abandon(_) => NoConversion
  }

  function ConversionStep(sys: System, s: State, a: Action): State
    requires Lawful(sys.gear) && a.OfConversion() && ConversionEnabled(sys, s, a)
  {
    s.(storage := ConversionStorage(sys, s, a), index := ConversionIndex(sys, s, a),
       conversions := s.conversions[a.c := ConversionNext(sys, s, a)])
  }

  predicate DownloadEnabled(s: State, a: Action)
    requires a.OfDownload()
  {
    s.up && a.d < |s.downloads| &&
    match a
    case Ask(d, _) => s.downloads[d].NoDownload?
    case CheckRaw(d) => s.downloads[d].Asked?
    case ReadRaw(d) => s.downloads[d].RawSeen?
    case LookUp(d) => s.downloads[d].RawMissing?
    case Reconstruct(d) => s.downloads[d].RefsFound?
    case EndDownload(d) => s.downloads[d].Served? || s.downloads[d].Failed?
  }

  /** The raw blob is preferred; when it is gone, even between check and read, the index is asked. */
  function DownloadNext(sys: System, s: State, a: Action): Download
    requires a.OfDownload() && DownloadEnabled(s, a)
  {
    var v := s.downloads[a.d];
    match a
    case Ask(_, oid) => Asked(oid, Owed(s, oid))
    case CheckRaw(_) => if v.oid in s.storage.raw then RawSeen(v.oid, v.owed) else RawMissing(v.oid, v.owed)
    case ReadRaw(_) => if v.oid in s.storage.raw then Served(v.oid, s.storage.raw[v.oid]) else RawMissing(v.oid, v.owed)
    case LookUp(_) =>
      if v.oid in s.index.files then RefsFound(v.oid, s.index.files[v.oid], v.owed)
      else Download.Failed(v.oid, v.owed)
    case Reconstruct(_) =>
      (match RebuildFile(sys.env, s.storage, v.oid, v.refs)
       case Rebuilt(bytes) => Served(v.oid, bytes)
       case Stale => Download.Failed(v.oid, v.owed)
       case Failed => Download.Failed(v.oid, v.owed))
    case EndDownload(_) => NoDownload
  }

  /** The object was acknowledged, as a raw blob or as a file of a shard. */
  predicate Owed(s: State, oid: Hash) { oid in s.promised || oid in s.registered }

  predicate Enabled(sys: System, s: State, a: Action) {
    if a.OfClient() then ClientEnabled(sys, s, a)
    else if a.OfConversion() then ConversionEnabled(sys, s, a)
    else if a.OfDownload() then DownloadEnabled(s, a)
    else if a.Crash? then true
    else !s.up && ListsAll(s.storage, a.listing)
  }

  /** The listing names exactly the stored shards. */
  predicate ListsAll(st: Storage, listing: seq<Hash>) {
    (forall id | id in st.shards :: id in listing) && (forall id | id in listing :: id in st.shards)
  }

  predicate RebuildSucceeds(env: Env, st: Storage, listing: seq<Hash>) {
    Failures(EMPTY_INDEX, Outcomes(env, st, listing), |listing|) == 0
  }

  /** The index after a start-up rebuild, complete or not. */
  function RebuiltIndex(env: Env, st: Storage, listing: seq<Hash>): IndexState {
    Folded(EMPTY_INDEX, Outcomes(env, st, listing), |listing|)
  }

  /** A crash loses the index and everything in flight; the storage stays. */
  function Crashed(s: State): State {
    s.(up := false, index := EMPTY_INDEX, conversions := Idle(|s.conversions|), downloads := Quiet(|s.downloads|))
  }

  function Apply(sys: System, s: State, a: Action): State
    requires Lawful(sys.gear) && Enabled(sys, s, a)
  {
    if a.OfClient() then ClientStep(sys, s, a)
    else if a.OfConversion() then ConversionStep(sys, s, a)
    else if a.OfDownload() then s.(downloads := s.downloads[a.d := DownloadNext(sys, s, a)])
    else if a.Crash? then Crashed(s)
    else s.(up := true, index := RebuiltIndex(sys.env, s.storage, a.listing))
  }

  // ----- the hypotheses about hashes, only where something is written over -----

  /** The strings hashed to verify the two xorbs do not collide. */
  ghost predicate XorbsDoNotCollide(env: Env, d1: Bytes, d2: Bytes) {
    var f1, f2 := LocateFooter(d1), LocateFooter(d2);
    f1.Ok? && f2.Ok? && |f1.value.1.hashes| == |f1.value.1.boundaries| && |f2.value.1.hashes| == |f2.value.1.boundaries|
    ==> NoCollision(env, d1, f1.value.1, d2, f2.value.1)
  }

  ghost predicate XorbWriteOk(env: Env, st: Storage, key: Hash, xorb: Bytes) {
    key in st.xorbs ==> XorbsDoNotCollide(env, st.xorbs[key], xorb)
  }

  ghost predicate ShardWriteOk(env: Env, st: Storage, shard: Bytes) {
    var id := env.DataHash(shard);
    id in st.shards ==> CollisionFreeOn(env.dataDigest, {st.shards[id], shard})
  }

  /** Two byte strings with an accepted hash form of the same hash. */
  ghost predicate Collide(env: Env, h: Hash, a: Bytes, b: Bytes) { a != b && Genuine(env, h, a) && Genuine(env, h, b) }

  /** A stored, valid shard declares a file with this hash, which rebuilds to these bytes. */
  ghost predicate Declares(env: Env, st: Storage, id: Hash, h: Hash, b: Bytes) {
    var out := ShardOutcome(env, st, id);
    && out.Some?
    && exists k :: 0 <= k < |out.value.files| && out.value.files[k].fileHash == h
                && RebuildRef(env, st, h, RefOf(out.value, out.value.files[k])) == Rebuilt(b)
  }

  ghost predicate FilesDoNotCollide(env: Env, st: Storage) {
    forall id, id', h, a, b | Declares(env, st, id, h, a) && Declares(env, st, id', h, b) :: !Collide(env, h, a, b)
  }

  /**
   * No hash collision in this step; a converted object is smaller than 4 GiB and does not carry the footer ident past
   * the footer start.
   */
  ghost predicate Benign(sys: System, s: State, a: Action)
    requires Lawful(sys.gear) && Enabled(sys, s, a)
  {
    match a
    case PutXorb(key, xorb) => XorbWriteOk(sys.env, s.storage, key, xorb)
    case PutShard(shard) => ShardWriteOk(sys.env, s.storage, shard)
    case StartConversion(_, oid) => |s.storage.raw[oid]| < U32
    case WriteXorb(c) =>
      var data := s.conversions[c].data;
      && IdentOnlyInPayload(sys.env, sys.settings.scheme, RawsOf(sys, data))
      && XorbWriteOk(sys.env, s.storage, XorbKeyOf(sys, data), XorbOf(sys, data))
    case WriteShard(c) => ShardWriteOk(sys.env, s.storage, ShardOf(sys, s.conversions[c].oid, s.conversions[c].data))
    case Restart(_) => FilesDoNotCollide(sys.env, s.storage)
    case _ => true
  }

  // ----- what lasts -----

  ghost predicate XorbsGrow(a: Xorbs, b: Xorbs) { forall h | h in a :: h in b && b[h] == a[h] }

  ghost predicate Grows(a: Storage, b: Storage) { XorbsGrow(a.xorbs, b.xorbs) && XorbsGrow(a.shards, b.shards) }

  ghost predicate RefsGrow(a: IndexState, b: IndexState) {
    forall h, r | r in RefsOf(a.files, h) :: r in RefsOf(b.files, h)
  }

  /** Some reference in the index rebuilds the object. */
  ghost predicate Indexed(env: Env, st: Storage, idx: IndexState, oid: Hash) {
    SomeRefWorks(env, st, RefsOf(idx.files, oid), oid)
  }

  ghost predicate SomeRefWorks(env: Env, st: Storage, refs: seq<FileRef>, oid: Hash) {
    exists r :: r in refs && RebuildRef(env, st, oid, r).Rebuilt?
  }

  predicate HasFile(shard: Bytes, oid: Hash) {
    && Parse(shard).Ok?
    && var headers := Parse(shard).value.fileHeaders;
       exists k :: 0 <= k < |headers| && headers[k].fileHash == oid
  }

  /** Some stored shard declares the object. */
  ghost predicate Covered(st: Storage, oid: Hash) { exists id :: id in st.shards && HasFile(st.shards[id], oid) }

  /** Without the raw blob: the storage outlives a crash, and while the server is up the index leads to the object. */
  ghost predicate Recoverable(env: Env, s: State, oid: Hash) {
    Covered(s.storage, oid) && (s.up ==> Indexed(env, s.storage, s.index, oid))
  }

  lemma RebuildRefStable(env: Env, st: Storage, st': Storage, oid: Hash, r: FileRef)
    requires Grows(st, st') && RebuildRef(env, st, oid, r).Rebuilt?
    ensures RebuildRef(env, st', oid, r) == RebuildRef(env, st, oid, r)
  {
    hide Parse, RebuildFromShard;
    RebuildStable(env, Parse(st.shards[r.shardId]).value, st.xorbs, st'.xorbs, oid, r.fileIndex);
  }

  lemma SomeRefStable(env: Env, st: Storage, st': Storage, refs: seq<FileRef>, refs': seq<FileRef>, oid: Hash)
    requires Grows(st, st') && SomeRefWorks(env, st, refs, oid) && forall r | r in refs :: r in refs'
    ensures SomeRefWorks(env, st', refs', oid)
  {
    hide RebuildRef, Grows;
    var r :| r in refs && RebuildRef(env, st, oid, r).Rebuilt?;
    RebuildRefStable(env, st, st', oid, r);
  }

  /** Nothing stored or known is lost or changed. */
  ghost predicate Evolves(s: State, s': State) {
    && Grows(s.storage, s'.storage) && RefsGrow(s.index, s'.index) && s'.up == s.up
    && s.promised.Keys <= s'.promised.Keys && s.registered <= s'.registered
  }

  lemma RecoverableStable(env: Env, s: State, s': State, oid: Hash)
    requires Evolves(s, s') && Recoverable(env, s, oid)
    ensures Recoverable(env, s', oid)
  {
    hide SomeRefWorks, HasFile, RefsOf;
    var id :| id in s.storage.shards && HasFile(s.storage.shards[id], oid);
    assert HasFile(s'.storage.shards[id], oid);
    if s.up {
      SomeRefStable(env, s.storage, s'.storage, RefsOf(s.index.files, oid), RefsOf(s'.index.files, oid), oid);
    }
  }

  lemma RegisterGrows(idx: IndexState, reg: Registration)
    ensures RefsGrow(idx, Register(idx, reg))
  {
    hide RefsOf, Register;
    forall h, r | r in RefsOf(idx.files, h)
      ensures r in RefsOf(Register(idx, reg).files, h)
    {
      RegisterKeepsRef(idx, reg, h, r);
    }
  }

  // ----- invariant -----

  /** What is stored is what its key says, and every stored shard passes validation. */
  ghost predicate StorageOk(env: Env, st: Storage) {
    && (forall h | h in st.xorbs :: XorbGenuine(env, h, st.xorbs[h]))
    && (forall id | id in st.shards :: env.DataHash(st.shards[id]) == id)
    && (forall oid | oid in st.raw :: Named(env, oid, st.raw[oid]))
    && AllValid(env, st)
  }

  ghost predicate AllValid(env: Env, st: Storage) { forall id | id in st.shards :: ShardOutcome(env, st, id).Some? }

  /** Every object that was ever stored has its raw blob or is recoverable without it. */
  ghost predicate PromisesKept(sys: System, s: State) {
    && s.storage.raw.Keys <= s.promised.Keys
    && (forall oid | oid in s.promised :: Named(sys.env, oid, s.promised[oid]))
    && (forall oid | oid in s.promised :: oid in s.storage.raw || Recoverable(sys.env, s, oid))
    && (forall oid | oid in s.registered :: Recoverable(sys.env, s, oid))
  }

  predicate Holding(sys: System, oid: Hash, data: Bytes) { Named(sys.env, oid, data) && |data| < U32 }

  /** The self-check accepted the xorb of the object. */
  predicate SelfChecked(sys: System, data: Bytes)
    requires Lawful(sys.gear)
  {
    VerifyMemory(sys.env, XorbOf(sys, data)) == Accepted
  }

  ghost predicate Fitting(sys: System, data: Bytes)
    requires Lawful(sys.gear)
  {
    Checked(sys.env, sys.settings.scheme, RawsOf(sys, data))
  }

  predicate HasXorb(sys: System, st: Storage, data: Bytes)
    requires Lawful(sys.gear)
  {
    XorbKeyOf(sys, data) in st.xorbs && st.xorbs[XorbKeyOf(sys, data)] == XorbOf(sys, data)
  }

  predicate HasShard(sys: System, st: Storage, oid: Hash, data: Bytes)
    requires Lawful(sys.gear)
  {
    var id := sys.env.DataHash(ShardOf(sys, oid, data));
    id in st.shards && st.shards[id] == ShardOf(sys, oid, data)
  }

  ghost predicate ConversionOk(sys: System, s: State, v: Flight)
    requires Lawful(sys.gear)
  {
    match v
    case NoConversion => true
    case RawRead(oid, data) => Holding(sys, oid, data)
    case XorbChecked(oid, data, present) =>
      Holding(sys, oid, data) && SelfChecked(sys, data) && (present ==> XorbKeyOf(sys, data) in s.storage.xorbs)
    case XorbStored(oid, data) => Holding(sys, oid, data) && Fitting(sys, data) && HasXorb(sys, s.storage, data)
    case ShardStored(oid, data) =>
      && Holding(sys, oid, data) && Fitting(sys, data)
      && HasXorb(sys, s.storage, data) && HasShard(sys, s.storage, oid, data)
    case Registered(oid) => Recoverable(sys.env, s, oid)
  }

  ghost predicate DownloadOk(env: Env, s: State, v: Download) {
    match v
    case NoDownload => true
    case Asked(oid, owed) => owed ==> Owed(s, oid)
    case RawSeen(oid, owed) => owed ==> Owed(s, oid)
    case RawMissing(oid, owed) => owed ==> Recoverable(env, s, oid)
    case RefsFound(oid, refs, owed) => owed ==> SomeRefWorks(env, s.storage, refs, oid)
    case Served(oid, bytes) => Genuine(env, oid, bytes)
    case Failed(_, owed) => !owed
  }

  ghost predicate ConversionsOk(sys: System, s: State)
    requires Lawful(sys.gear)
  {
    forall c | 0 <= c < |s.conversions| :: ConversionOk(sys, s, s.conversions[c])
  }

  ghost predicate DownloadsOk(env: Env, s: State) {
    forall d | 0 <= d < |s.downloads| :: DownloadOk(env, s, s.downloads[d])
  }

  ghost predicate Inv(sys: System, s: State)
    requires Lawful(sys.gear)
  {
    && StorageOk(sys.env, s.storage) && PromisesKept(sys, s)
    && ConversionsOk(sys, s) && DownloadsOk(sys.env, s) && IndexOk(s.index)
    && (s.up || (s.conversions == Idle(|s.conversions|) && s.downloads == Quiet(|s.downloads|)))
  }

  function Idle(n: nat): (fs: seq<Flight>)
    ensures |fs| == n
  {
    seq(n, _ => NoConversion)
  }

  function Quiet(n: nat): (ds: seq<Download>)
    ensures |ds| == n
  {
    seq(n, _ => NoDownload)
  }

  lemma ConversionOkStable(sys: System, s: State, s': State, v: Flight)
    requires Lawful(sys.gear) && Evolves(s, s') && ConversionOk(sys, s, v)
    ensures ConversionOk(sys, s', v)
  {
    hide Recoverable, Holding, SelfChecked, Fitting, XorbOf, XorbKeyOf, ShardOf, Lawful, RefsGrow;
    if v.Registered? {
      RecoverableStable(sys.env, s, s', v.oid);
    }
  }

  lemma DownloadOkStable(env: Env, s: State, s': State, v: Download)
    requires Evolves(s, s') && DownloadOk(env, s, v)
    ensures DownloadOk(env, s', v)
  {
    hide Recoverable, SomeRefWorks, Genuine, RefsGrow, Grows;
    if v.RawMissing? && v.owed {
      RecoverableStable(env, s, s', v.oid);
    } else if v.RefsFound? && v.owed {
      SomeRefStable(env, s.storage, s'.storage, v.refs, v.refs, v.oid);
    }
  }

  lemma FlightsStable(sys: System, s: State, s': State)
    requires Lawful(sys.gear) && Evolves(s, s') && ConversionsOk(sys, s) && DownloadsOk(sys.env, s)
    ensures s'.conversions == s.conversions ==> ConversionsOk(sys, s')
    ensures s'.downloads == s.downloads ==> DownloadsOk(sys.env, s')
  {
    hide ConversionOk, DownloadOk, Evolves, Lawful;
    forall c | 0 <= c < |s.conversions|
      ensures ConversionOk(sys, s', s.conversions[c])
    {
      ConversionOkStable(sys, s, s', s.conversions[c]);
    }
    forall d | 0 <= d < |s.downloads|
      ensures DownloadOk(sys.env, s', s.downloads[d])
    {
      DownloadOkStable(sys.env, s, s', s.downloads[d]);
    }
  }

  lemma FlightMoves(sys: System, s: State, s': State, c: nat, v: Flight)
    requires Lawful(sys.gear) && Evolves(s, s') && ConversionsOk(sys, s)
    requires c < |s.conversions| && s'.conversions == s.conversions[c := v] && ConversionOk(sys, s', v)
    ensures ConversionsOk(sys, s')
  {
    hide ConversionOk, Evolves, Lawful;
    forall i | 0 <= i < |s.conversions|
      ensures ConversionOk(sys, s', s'.conversions[i])
    {
      if i != c {
        assert s'.conversions[i] == s.conversions[i];
        ConversionOkStable(sys, s, s', s.conversions[i]);
      }
    }
  }

  lemma PromisesStable(sys: System, s: State, s': State)
    requires Evolves(s, s') && PromisesKept(sys, s) && StorageOk(sys.env, s'.storage)
    requires s.storage.raw.Keys <= s'.storage.raw.Keys <= s'.promised.Keys
    requires forall oid | oid in s'.promised ::
               || (oid in s.promised && s'.promised[oid] == s.promised[oid])
               || (oid in s'.storage.raw && s'.promised[oid] == s'.storage.raw[oid])
    requires forall oid | oid in s'.registered :: oid in s.registered || Recoverable(sys.env, s', oid)
    ensures PromisesKept(sys, s')
  {
    hide Recoverable, Evolves, Named, XorbGenuine, AllValid;
    forall oid | (oid in s'.promised && oid !in s'.storage.raw) || oid in s'.registered
      ensures Recoverable(sys.env, s', oid)
    {
      if oid !in s'.registered || oid in s.registered {
        RecoverableStable(sys.env, s, s', oid);
      }
    }
  }

  // ----- writes -----

  /** Writing a genuine xorb over another with the same hash changes nothing. */
  lemma XorbWriteKeeps(env: Env, st: Storage, key: Hash, xorb: Bytes)
    requires StorageOk(env, st) && XorbGenuine(env, key, xorb) && XorbWriteOk(env, st, key, xorb)
    ensures key in st.xorbs ==> st.xorbs[key] == xorb
  {
    hide Named, FileAccepts, InfoOf, NoCollision, LocateFooter;
    if key in st.xorbs {
      assert XorbGenuine(env, key, st.xorbs[key]);
      FooterSizes(env, st.xorbs[key]);
      FooterSizes(env, xorb);
      SameHashSameFile(env, st.xorbs[key], xorb);
    }
  }

  lemma FooterSizes(env: Env, data: Bytes)
    requires VerifyFile(env, data).Ok?
    ensures LocateFooter(data).Ok?
    ensures |LocateFooter(data).value.1.hashes| == |LocateFooter(data).value.1.boundaries|
  {
    hide LocateFooter, RegionsVerified, Root, Leaves;
  }

  lemma ShardWriteKeeps(env: Env, st: Storage, shard: Bytes)
    requires StorageOk(env, st) && ShardWriteOk(env, st, shard)
    ensures var id := env.DataHash(shard); id in st.shards ==> st.shards[id] == shard
  {
    hide Named, XorbGenuine;
  }

  /** Valid shards stay valid while storage grows. */
  lemma OutcomeStable(env: Env, st: Storage, st': Storage, id: Hash)
    requires Grows(st, st') && ShardOutcome(env, st, id).Some?
    ensures ShardOutcome(env, st', id) == ShardOutcome(env, st, id)
  {
    hide Parse, Validate;
    ValidateStable(env, id, Parse(st.shards[id]).value, st.xorbs, st'.xorbs);
  }

  /** Nothing changes but for one shard that is new: if that one is valid, all are. */
  lemma AllValidStable(env: Env, st: Storage, st': Storage, id: Hash)
    requires Grows(st, st') && AllValid(env, st) && st'.shards.Keys <= st.shards.Keys + {id}
    requires id in st'.shards ==> ShardOutcome(env, st', id).Some?
    ensures AllValid(env, st')
  {
    hide ShardOutcome, Grows;
    forall i | i in st'.shards && i != id
      ensures ShardOutcome(env, st', i).Some?
    {
      OutcomeStable(env, st, st', i);
    }
  }

  lemma SameShardsValid(env: Env, st: Storage, st': Storage)
    requires Grows(st, st') && AllValid(env, st) && st'.shards == st.shards
    ensures AllValid(env, st')
  {
    hide ShardOutcome, Grows;
    forall i | i in st'.shards
      ensures ShardOutcome(env, st', i).Some?
    {
      OutcomeStable(env, st, st', i);
    }
  }

  lemma PutShardValid(env: Env, st: Storage, shard: Bytes)
    requires ShardValid(env, st, shard)
    ensures ShardOutcome(env, StoreShard(st, env.DataHash(shard), shard), env.DataHash(shard)).Some?
  {
    hide Parse, Validate;
  }

  lemma ClientWriteGrows(sys: System, s: State, a: Action)
    requires Lawful(sys.gear) && Inv(sys, s) && a.OfClient() && Enabled(sys, s, a) && Benign(sys, s, a)
    ensures Evolves(s, ClientStep(sys, s, a)) && StorageOk(sys.env, ClientStep(sys, s, a).storage)
  {
    hide PromisesKept, ConversionsOk, DownloadsOk, Named, XorbGenuine, XorbWriteOk, ShardWriteOk, Register, Parse,
         ShardOutcome, Lawful, ShardValid, AllValid;
    var st, st' := s.storage, ClientStep(sys, s, a).storage;
    match a
    case PutXorb(key, xorb) =>
      XorbWriteKeeps(sys.env, st, key, xorb);
      SameShardsValid(sys.env, st, st');
    case PutShard(shard) =>
      ShardWriteKeeps(sys.env, st, shard);
      PutShardValid(sys.env, st, shard);
      AllValidStable(sys.env, st, st', sys.env.DataHash(shard));
    case RegisterShard(id) => RegisterGrows(s.index, ShardOutcome(sys.env, st, id).value);
    case PutRaw(_, _) => SameShardsValid(sys.env, st, st');
  }

  /** A shard that was accepted makes every one of its files recoverable. */
  lemma RegisteredFilesRecoverable(sys: System, s: State, id: Hash)
    requires ShardOutcome(sys.env, s.storage, id).Some? && IndexOk(s.index)
    ensures var reg := ShardOutcome(sys.env, s.storage, id).value;
            var s' := s.(index := Register(s.index, reg), registered := s.registered + FilesOf(reg));
            Accepts(s.index, reg) ==> forall oid | oid in FilesOf(reg) :: Recoverable(sys.env, s', oid)
  {
    hide ShardOutcome, Recoverable, Register, Accepts, IndexOk;
    var reg := ShardOutcome(sys.env, s.storage, id).value;
    var s' := s.(index := Register(s.index, reg), registered := s.registered + FilesOf(reg));
    if Accepts(s.index, reg) {
      forall oid | oid in FilesOf(reg)
        ensures Recoverable(sys.env, s', oid)
      {
        var k :| 0 <= k < |reg.files| && reg.files[k].fileHash == oid;
        RegisteredFileRecoverable(sys, s, id, k);
        SameRecoverable(sys.env, s.(index := Register(s.index, reg)), s', oid);
      }
    }
  }

  lemma SameRecoverable(env: Env, s: State, s': State, oid: Hash)
    requires s'.storage == s.storage && s'.index == s.index && s'.up == s.up
    ensures Recoverable(env, s, oid) <==> Recoverable(env, s', oid)
  {
    hide Covered, Indexed;
  }

  lemma RegisteredFileRecoverable(sys: System, s: State, id: Hash, k: nat)
    requires ShardOutcome(sys.env, s.storage, id).Some? && IndexOk(s.index)
    requires Accepts(s.index, ShardOutcome(sys.env, s.storage, id).value)
    requires k < |ShardOutcome(sys.env, s.storage, id).value.files|
    ensures var reg := ShardOutcome(sys.env, s.storage, id).value;
            Recoverable(sys.env, s.(index := Register(s.index, reg)), reg.files[k].fileHash)
  {
    hide ShardOutcome, RebuildRef, RefsOf, Register, Accepts, IndexOk, Genuine, HasFile;
    var reg := ShardOutcome(sys.env, s.storage, id).value;
    RegisteredFile(s.index, reg, k);
    ValidatedRefSound(sys.env, s.storage, id, k);
    OutcomeHasFile(sys.env, s.storage, id, k);
  }

  lemma OutcomeHasFile(env: Env, st: Storage, id: Hash, k: nat)
    requires ShardOutcome(env, st, id).Some? && k < |ShardOutcome(env, st, id).value.files|
    ensures id in st.shards && HasFile(st.shards[id], ShardOutcome(env, st, id).value.files[k].fileHash)
  {
    hide Parse, Validates, KeptLookups, UsedChunks, FileResult;
  }

  lemma ClientKeepsInv(sys: System, s: State, a: Action)
    requires Lawful(sys.gear) && Inv(sys, s) && a.OfClient() && Enabled(sys, s, a) && Benign(sys, s, a)
    ensures Inv(sys, ClientStep(sys, s, a))
  {
    ClientWriteGrows(sys, s, a);
    if a.RegisterShard? {
      RegisterKeepsIndexOk(s.index, ShardOutcome(sys.env, s.storage, a.id).value);
      RegisteredFilesRecoverable(sys, s, a.id);
    }
    hide FilesOf, Accepts, IndexOk, StorageOk, ConversionsOk, DownloadsOk, Evolves, Recoverable, Benign, ShardOutcome,
         Register, Parse, XorbGenuine, Named, Lawful, ShardValid;
    var s' := ClientStep(sys, s, a);
    FlightsStable(sys, s, s');
    PromisesStable(sys, s, s');
  }

  // ----- conversions -----

  lemma FittingFits(sys: System, data: Bytes)
    requires Lawful(sys.gear) && Fitting(sys, data) && LawfulLz4(sys.env)
    ensures Fits(sys.env, sys.settings.scheme, RawsOf(sys, data))
  {
    hide Pieces, LawfulLz4, Lawful, Fits, Checked;
    PiecesStorable(sys.env, sys.settings.scheme, sys.gear, data);
  }

  lemma BuiltXorbGenuine(sys: System, data: Bytes)
    requires Lawful(sys.gear) && Fitting(sys, data) && LawfulLz4(sys.env)
    ensures XorbGenuine(sys.env, XorbKeyOf(sys, data), XorbOf(sys, data))
  {
    FittingFits(sys, data);
    hide Pieces, LawfulLz4, Lawful, Fits, VerifyFile, VerifyMemory, IdentOnlyInPayload, XorbBytes, Root, LeavesOf,
         Flatten;
    BuiltXorbVerifies(sys.env, sys.settings.scheme, RawsOf(sys, data));
  }

  /** An accepted self-check, the size limit and the absence of a later ident make the object fit. */
  lemma BecomesFitting(sys: System, oid: Hash, data: Bytes)
    requires Lawful(sys.gear) && Holding(sys, oid, data) && SelfChecked(sys, data)
    requires IdentOnlyInPayload(sys.env, sys.settings.scheme, RawsOf(sys, data))
    ensures Fitting(sys, data)
  {
    hide Pieces, Lawful, VerifyMemory, IdentOnlyInPayload, XorbBytes, Flatten, Named;
    PiecesCoverInput(sys.gear, DEFAULT_CONFIG, data);
  }

  lemma HeldIsStored(sys: System, st: Storage, oid: Hash, data: Bytes)
    requires Lawful(sys.gear) && HasXorb(sys, st, data) && HasShard(sys, st, oid, data)
    ensures Stored(sys.env, sys.settings.scheme, oid, RawsOf(sys, data), st)
  {
    hide Pieces, Lawful, XorbBytes, XorbHashFor, SB.BuildBytes, ContentsFor;
  }

  /** After registration the object is recoverable without its raw blob. */
  lemma RegisteredIsRecoverable(sys: System, s: State, oid: Hash, data: Bytes)
    requires Lawful(sys.gear) && Holding(sys, oid, data) && Fitting(sys, data)
    requires HasXorb(sys, s.storage, data) && HasShard(sys, s.storage, oid, data)
    requires Accepts(s.index, RegistrationOf(sys, oid, data)) && IndexOk(s.index) && LawfulLz4(sys.env)
    ensures Covered(s.storage, oid)
    ensures Indexed(sys.env, s.storage, Register(s.index, RegistrationOf(sys, oid, data)), oid)
  {
    FittingFits(sys, data);
    ShardHasFile(sys, oid, data);
    HeldIsStored(sys, s.storage, oid, data);
    hide Pieces, LawfulLz4, Lawful, RebuildRef, Parse, Named, IndexOk, Register, Accepts, XorbBytes, XorbHashFor,
         SB.BuildBytes, ContentsFor, BuildResultFor, ChunkMappingsFor, Checked, Fits, Stored, HasFile;
    var reg := RegistrationOf(sys, oid, data);
    StoredRebuilds(sys.env, sys.gear, sys.settings.scheme, oid, data, s.storage);
    RegisteredFile(s.index, reg, 0);
    assert RefOf(reg, reg.files[0]) == FileRef(reg.shardId, 0, |data|);
  }

  lemma ShardHasFile(sys: System, oid: Hash, data: Bytes)
    requires Lawful(sys.gear) && Fits(sys.env, sys.settings.scheme, RawsOf(sys, data))
    ensures HasFile(ShardOf(sys, oid, data), oid)
  {
    hide Pieces, Lawful, Parse, SB.BuildBytes, ContentsFor, ShardFor, Fits;
    var raws := RawsOf(sys, data);
    FitsIsTabled(sys.env, sys.settings.scheme, raws);
    ShardParses(sys.env, sys.settings.scheme, oid, raws);
    ShardNamesFile(sys.env, sys.settings.scheme, oid, raws);
  }

  lemma ShardNamesFile(env: Env, scheme: Compression.Scheme, oid: Hash, raws: seq<Bytes>)
    requires |raws| < U32
    ensures |ShardFor(env, scheme, oid, raws).fileHeaders| > 0
            && ShardFor(env, scheme, oid, raws).fileHeaders[0].fileHash == oid
  {
    hide ShardFor;
    Tables1(env, scheme, oid, raws);
  }

  /** The shard a conversion writes passes validation. */
  lemma WrittenShardValid(sys: System, st: Storage, oid: Hash, data: Bytes)
    requires Lawful(sys.gear) && Holding(sys, oid, data) && Fitting(sys, data)
    requires HasXorb(sys, st, data) && HasShard(sys, st, oid, data) && LawfulLz4(sys.env)
    ensures ShardOutcome(sys.env, st, sys.env.DataHash(ShardOf(sys, oid, data))).Some?
  {
    HeldIsStored(sys, st, oid, data);
    hide Pieces, LawfulLz4, Lawful, RebuildRef, Parse, Named, Validate, XorbBytes, XorbHashFor, SB.BuildBytes,
         ContentsFor, BuildResultFor, ChunkMappingsFor, Checked, Stored;
    ConversionIsFaithful(sys.env, sys.gear, sys.settings.scheme, oid, data, st);
  }

  lemma WriteShardValid(sys: System, s: State, oid: Hash, data: Bytes)
    requires Lawful(sys.gear) && Holding(sys, oid, data) && Fitting(sys, data) && HasXorb(sys, s.storage, data)
    requires AllValid(sys.env, s.storage) && LawfulLz4(sys.env)
    requires var shard := ShardOf(sys, oid, data);
             Grows(s.storage, StoreShard(s.storage, sys.env.DataHash(shard), shard))
    ensures var shard := ShardOf(sys, oid, data);
            AllValid(sys.env, StoreShard(s.storage, sys.env.DataHash(shard), shard))
  {
    hide ShardOf, XorbOf, XorbKeyOf, Fitting, Holding, LawfulLz4, Lawful, AllValid, ShardOutcome;
    var shard := ShardOf(sys, oid, data);
    var st' := StoreShard(s.storage, sys.env.DataHash(shard), shard);
    WrittenShardValid(sys, st', oid, data);
    AllValidStable(sys.env, s.storage, st', sys.env.DataHash(shard));
  }

  lemma ConversionWriteGrows(sys: System, s: State, a: Action)
    requires Lawful(sys.gear) && Inv(sys, s) && a.OfConversion() && Enabled(sys, s, a) && Benign(sys, s, a)
    requires LawfulLz4(sys.env)
    ensures Grows(s.storage, ConversionStorage(sys, s, a)) && StorageOk(sys.env, ConversionStorage(sys, s, a))
    ensures RefsGrow(s.index, ConversionIndex(sys, s, a)) && IndexOk(ConversionIndex(sys, s, a))
  {
    hide PromisesKept, DownloadsOk, Named, XorbGenuine, XorbWriteOk, ShardWriteOk, Register, Parse, Lawful, LawfulLz4,
         IdentOnlyInPayload, XorbOf, XorbKeyOf, ShardOf, RegistrationOf, HasXorb, HasShard, IndexOk, Convertible,
         Recoverable, RawsOf, RefsGrow, AllValid, Fitting, Holding, SelfChecked;
    assert ConversionOk(sys, s, s.conversions[a.c]);
    SameRefs(s.index);
    var st, st' := s.storage, ConversionStorage(sys, s, a);
    match a
    case WriteXorb(c) =>
      var v := s.conversions[c];
      BecomesFitting(sys, v.oid, v.data);
      BuiltXorbGenuine(sys, v.data);
      XorbWriteKeeps(sys.env, st, XorbKeyOf(sys, v.data), XorbOf(sys, v.data));
      SameShardsValid(sys.env, st, st');
    case WriteShard(c) =>
      var v := s.conversions[c];
      ShardWriteKeeps(sys.env, st, ShardOf(sys, v.oid, v.data));
      WriteShardValid(sys, s, v.oid, v.data);
    case RegisterConversion(c) =>
      var reg := RegistrationOf(sys, s.conversions[c].oid, s.conversions[c].data);
      RegisterGrows(s.index, reg);
      RegisterKeepsIndexOk(s.index, reg);
    case _ => SameShardsValid(sys.env, st, st');
  }

  lemma SameRefs(idx: IndexState)
    ensures RefsGrow(idx, idx)
  {
  }

  lemma ConversionEvolves(sys: System, s: State, a: Action)
    requires Lawful(sys.gear) && Inv(sys, s) && a.OfConversion() && Enabled(sys, s, a) && Benign(sys, s, a)
    requires LawfulLz4(sys.env)
    ensures Evolves(s, ConversionStep(sys, s, a))
  {
    hide Inv, Benign, ConversionStorage, ConversionIndex, ConversionNext, Enabled, ConversionEnabled, Lawful, LawfulLz4;
    ConversionWriteGrows(sys, s, a);
  }

  /** The conversion that moved is where its invariant wants it. */
  lemma NextIsOk(sys: System, s: State, a: Action)
    requires Lawful(sys.gear) && Inv(sys, s) && a.OfConversion() && Enabled(sys, s, a) && Benign(sys, s, a)
    requires LawfulLz4(sys.env)
    ensures ConversionOk(sys, ConversionStep(sys, s, a), ConversionNext(sys, s, a))
  {
    hide Inv, Benign, Holding, SelfChecked, Fitting, HasXorb, HasShard, Register, Parse, Lawful, LawfulLz4, Evolves,
         Recoverable, XorbOf, XorbKeyOf, ShardOf, RegistrationOf, Accepts;
    FlightIsOk(sys, s, a.c);
    ConversionEvolves(sys, s, a);
    match a
    case StartConversion(_, _) => StartIsOk(sys, s, a);
    case CheckXorb(c) => CheckIsOk(sys, s.conversions[c].data);
    case WriteXorb(_) => WriteXorbIsOk(sys, s, a);
    case WriteShard(_) => WriteShardIsOk(sys, s, a);
    case RegisterConversion(c) => RegisterIsOk(sys, s, a);
    case _ =>
  }

  lemma FlightIsOk(sys: System, s: State, c: nat)
    requires Lawful(sys.gear) && Inv(sys, s) && c < |s.conversions|
    ensures ConversionOk(sys, s, s.conversions[c])
  {
    hide ConversionOk, DownloadsOk, PromisesKept, StorageOk, IndexOk, Lawful;
  }

  lemma CheckIsOk(sys: System, data: Bytes)
    requires Lawful(sys.gear)
    ensures SelfChecked(sys, data) <==> VerifyMemory(sys.env, XorbOf(sys, data)) == Accepted
  {
    hide VerifyMemory, XorbOf, Lawful;
  }

  /** The shard is stored under its hash, and the xorb is still there. */
  lemma WriteShardIsOk(sys: System, s: State, a: Action)
    requires Lawful(sys.gear) && a.WriteShard? && Enabled(sys, s, a) && ConversionOk(sys, s, s.conversions[a.c])
    ensures ConversionNext(sys, s, a).ShardStored? ==>
              && HasXorb(sys, ConversionStorage(sys, s, a), s.conversions[a.c].data)
              && HasShard(sys, ConversionStorage(sys, s, a), s.conversions[a.c].oid, s.conversions[a.c].data)
  {
    hide Parse, XorbOf, XorbKeyOf, ShardOf, Lawful, Fitting, Holding;
  }

  lemma RegisterIsOk(sys: System, s: State, a: Action)
    requires Lawful(sys.gear) && Inv(sys, s) && a.RegisterConversion? && Enabled(sys, s, a)
    requires ConversionOk(sys, s, s.conversions[a.c]) && LawfulLz4(sys.env)
    ensures ConversionNext(sys, s, a).Registered? ==>
            Recoverable(sys.env, ConversionStep(sys, s, a), s.conversions[a.c].oid)
  {
    hide StorageOk, PromisesKept, DownloadsOk, ConversionsOk, IndexOk, Lawful, LawfulLz4, Holding, Fitting, HasXorb,
         HasShard, Register, Accepts, RegistrationOf, Covered, Indexed;
    if ConversionNext(sys, s, a).Registered? {
      RegisteredIsRecoverable(sys, s, s.conversions[a.c].oid, s.conversions[a.c].data);
    }
  }

  lemma StartIsOk(sys: System, s: State, a: Action)
    requires Lawful(sys.gear) && Inv(sys, s) && a.StartConversion? && Enabled(sys, s, a) && Benign(sys, s, a)
    ensures Holding(sys, a.target, s.storage.raw[a.target])
  {
    hide PromisesKept, DownloadsOk, ConversionsOk, Lawful, Named, XorbGenuine, AllValid, IndexOk;
  }

  /** A xorb that was already present is the one that would have been written. */
  lemma WriteXorbIsOk(sys: System, s: State, a: Action)
    requires Lawful(sys.gear) && Inv(sys, s) && a.WriteXorb? && Enabled(sys, s, a) && Benign(sys, s, a)
             && LawfulLz4(sys.env)
    ensures Fitting(sys, s.conversions[a.c].data)
    ensures HasXorb(sys, ConversionStorage(sys, s, a), s.conversions[a.c].data)
  {
    hide PromisesKept, DownloadsOk, Named, XorbGenuine, XorbWriteOk, Lawful, LawfulLz4, IdentOnlyInPayload, XorbOf,
         XorbKeyOf, IndexOk, RawsOf, StorageOk, Fitting, SelfChecked, Holding;
    var v := s.conversions[a.c];
    assert ConversionOk(sys, s, v);
    BecomesFitting(sys, v.oid, v.data);
    BuiltXorbGenuine(sys, v.data);
    XorbWriteKeeps(sys.env, s.storage, XorbKeyOf(sys, v.data), XorbOf(sys, v.data));
  }

  lemma ConversionKeepsInv(sys: System, s: State, a: Action)
    requires Lawful(sys.gear) && Inv(sys, s) && a.OfConversion() && Enabled(sys, s, a) && Benign(sys, s, a)
    requires LawfulLz4(sys.env)
    ensures Inv(sys, ConversionStep(sys, s, a))
  {
    ConversionWriteGrows(sys, s, a);
    ConversionEvolves(sys, s, a);
    NextIsOk(sys, s, a);
    ConversionKeepsPromises(sys, s, a);
    hide StorageOk, ConversionsOk, DownloadsOk, PromisesKept, Evolves, Benign, Lawful, LawfulLz4, IndexOk,
         ConversionStorage, ConversionIndex, ConversionNext, ConversionOk, Grows, RefsGrow;
    var s' := ConversionStep(sys, s, a);
    FlightsStable(sys, s, s');
    FlightMoves(sys, s, s', a.c, ConversionNext(sys, s, a));
  }

  /** Only a registered conversion deletes, and then the object is recoverable. */
  lemma ConversionKeepsPromises(sys: System, s: State, a: Action)
    requires Lawful(sys.gear) && Inv(sys, s) && a.OfConversion() && Enabled(sys, s, a)
             && Evolves(s, ConversionStep(sys, s, a))
    requires StorageOk(sys.env, ConversionStorage(sys, s, a))
    ensures PromisesKept(sys, ConversionStep(sys, s, a))
  {
    hide StorageOk, DownloadsOk, Evolves, Recoverable, Lawful, IndexOk, XorbOf, XorbKeyOf, ShardOf, RegistrationOf,
         Named, Parse, Register, HasXorb, HasShard, Convertible, VerifyMemory, Accepts, Holding, Fitting, SelfChecked;
    var s' := ConversionStep(sys, s, a);
    if a.DeleteRaw? {
      assert ConversionOk(sys, s, s.conversions[a.c]);
      forall oid | (oid in s'.promised && oid !in s'.storage.raw) || oid in s'.registered
        ensures Recoverable(sys.env, s', oid)
      {
        RecoverableStable(sys.env, s, s', oid);
      }
    } else {
      PromisesStable(sys, s, s');
    }
  }

  // ----- downloads -----

  lemma NamedIsGenuine(env: Env, oid: Hash, data: Bytes)
    requires Named(env, oid, data)
    ensures Genuine(env, oid, data)
  {
    hide FileHash;
    assert Flatten([data]) == data + Flatten([]) == data;
    assert HashAccepted(env, oid, [data]);
  }

  lemma RebuiltFileIsGenuine(env: Env, st: Storage, oid: Hash, refs: seq<FileRef>)
    requires RebuildFile(env, st, oid, refs).Rebuilt?
    ensures Genuine(env, oid, RebuildFile(env, st, oid, refs).bytes)
  {
    hide Parse, RebuildFromShard, RebuildFile, Genuine;
    ServedIffSomeRefWorks(env, st, oid, refs);
    var r :| r in refs && RebuildRef(env, st, oid, r) == RebuildFile(env, st, oid, refs);
    RebuiltIsGenuine(env, Parse(st.shards[r.shardId]).value, st.xorbs, oid, r.fileIndex);
  }

  lemma NextDownloadIsOk(sys: System, s: State, a: Action)
    requires Lawful(sys.gear) && Inv(sys, s) && a.OfDownload() && Enabled(sys, s, a)
    ensures DownloadOk(sys.env, s, DownloadNext(sys, s, a))
  {
    hide ConversionsOk, IndexOk, Genuine, RebuildFile, RebuildRef, Covered, Lawful, Named, XorbGenuine;
    var v := s.downloads[a.d];
    assert DownloadOk(sys.env, s, v);
    match a
    case ReadRaw(_) =>
      if v.oid in s.storage.raw {
        NamedIsGenuine(sys.env, v.oid, s.storage.raw[v.oid]);
      }
    case Reconstruct(_) =>
      ServedIffSomeRefWorks(sys.env, s.storage, v.oid, v.refs);
      if RebuildFile(sys.env, s.storage, v.oid, v.refs).Rebuilt? {
        RebuiltFileIsGenuine(sys.env, s.storage, v.oid, v.refs);
      }
    case _ =>
  }

  lemma DownloadKeepsInv(sys: System, s: State, a: Action)
    requires Lawful(sys.gear) && Inv(sys, s) && a.OfDownload() && Enabled(sys, s, a)
    ensures Inv(sys, Apply(sys, s, a))
  {
    NextDownloadIsOk(sys, s, a);
    hide DownloadsOk, ConversionsOk, PromisesKept, DownloadOk, IndexOk, StorageOk, DownloadNext, Lawful;
    DownloadMoves(sys, s, a.d, DownloadNext(sys, s, a));
  }

  lemma DownloadMoves(sys: System, s: State, d: nat, v: Download)
    requires Lawful(sys.gear) && ConversionsOk(sys, s) && DownloadsOk(sys.env, s) && PromisesKept(sys, s)
    requires d < |s.downloads| && DownloadOk(sys.env, s, v)
    ensures var s' := s.(downloads := s.downloads[d := v]);
            ConversionsOk(sys, s') && DownloadsOk(sys.env, s') && PromisesKept(sys, s')
  {
    hide ConversionOk, DownloadOk, Recoverable, Lawful;
    SameOk(sys, s, s.(downloads := s.downloads[d := v]));
  }

  /** The invariants of one conversion and one download do not look at the other downloads. */
  lemma SameOk(sys: System, s: State, s': State)
    requires Lawful(sys.gear) && s' == s.(downloads := s'.downloads)
    ensures forall v :: ConversionOk(sys, s, v) ==> ConversionOk(sys, s', v)
    ensures forall v :: DownloadOk(sys.env, s, v) ==> DownloadOk(sys.env, s', v)
    ensures forall oid :: Recoverable(sys.env, s, oid) ==> Recoverable(sys.env, s', oid)
  {
    hide Covered, Indexed, Holding, HasXorb, HasShard, Lawful, Genuine, SomeRefWorks;
  }

  // ----- crash and restart -----

  lemma CrashKeepsInv(sys: System, s: State)
    requires Lawful(sys.gear) && Inv(sys, s)
    ensures Inv(sys, Crashed(s))
  {
    hide StorageOk, Covered, Indexed, Lawful, Named;
  }

  lemma FoldedHasRef(outs: seq<Option<Registration>>, i: nat, k: nat)
    requires Failures(EMPTY_INDEX, outs, |outs|) == 0 && i < |outs| && outs[i].Some? && k < |outs[i].value.files|
    ensures var reg := outs[i].value;
            RefOf(reg, reg.files[k]) in RefsOf(Folded(EMPTY_INDEX, outs, |outs|).files, reg.files[k].fileHash)
  {
    hide Failures, Folded, RefsOf;
    var reg := outs[i].value;
    FoldedContents(outs, |outs|, reg.files[k].fileHash);
    assert reg in RegSet(outs, |outs|);
    RefIncluded(RegSet(outs, |outs|), reg, k);
  }

  /** After a complete rebuild every object that some stored shard declares is served again. */
  lemma RestartServes(env: Env, st: Storage, listing: seq<Hash>, oid: Hash)
    requires ListsAll(st, listing) && RebuildSucceeds(env, st, listing) && Covered(st, oid)
    ensures Indexed(env, st, RebuiltIndex(env, st, listing), oid)
  {
    hide Failures, Folded, RebuildRef, HasFile, ShardOutcome, RefsOf, Consistent, RegSet;
    var id :| id in st.shards && HasFile(st.shards[id], oid);
    var i :| 0 <= i < |listing| && listing[i] == id;
    var outs := Outcomes(env, st, listing);
    FoldSucceedsIffConsistent(outs, |outs|);
    assert outs[i] == ShardOutcome(env, st, id);
    var k := RegistrationServes(env, st, id, oid);
    FoldedHasRef(outs, i, k);
    var reg := outs[i].value;
    assert RefOf(reg, reg.files[k]) in RefsOf(RebuiltIndex(env, st, listing).files, oid);
  }

  lemma RegistrationServes(env: Env, st: Storage, id: Hash, oid: Hash) returns (k: nat)
    requires id in st.shards && HasFile(st.shards[id], oid) && ShardOutcome(env, st, id).Some?
    ensures var reg := ShardOutcome(env, st, id).value;
            && k < |reg.files| && reg.files[k].fileHash == oid
            && RebuildRef(env, st, oid, RefOf(reg, reg.files[k])).Rebuilt?
  {
    hide Parse, Validates, RebuildRef, FileMappings, KeptLookups, UsedChunks;
    var s := Parse(st.shards[id]).value;
    k :| 0 <= k < |s.fileHeaders| && s.fileHeaders[k].fileHash == oid;
    var reg := ShardOutcome(env, st, id).value;
    RegisteredFilesAreSound(env, st, reg, s, st.xorbs, k);
  }

  /** Two valid shards that give a file two sizes declare colliding files. */
  lemma SizesAgreeUnlessCollision(env: Env, st: Storage, id: Hash, i: nat, id': Hash, j: nat)
    requires ShardOutcome(env, st, id).Some? && i < |ShardOutcome(env, st, id).value.files|
    requires ShardOutcome(env, st, id').Some? && j < |ShardOutcome(env, st, id').value.files|
    requires var f, g := ShardOutcome(env, st, id).value.files[i], ShardOutcome(env, st, id').value.files[j];
             f.fileHash == g.fileHash && f.fileSize != g.fileSize
    ensures !FilesDoNotCollide(env, st)
  {
    hide ShardOutcome, RebuildRef, Genuine;
    ValidatedRefSound(env, st, id, i);
    ValidatedRefSound(env, st, id', j);
    var a, b := ShardOutcome(env, st, id).value, ShardOutcome(env, st, id').value;
    var h := a.files[i].fileHash;
    var x, y := RebuildRef(env, st, h, RefOf(a, a.files[i])).bytes, RebuildRef(env, st, h, RefOf(b, b.files[j])).bytes;
    assert Declares(env, st, id, h, x) && Declares(env, st, id', h, y);
    assert Collide(env, h, x, y);
  }

  lemma OutcomeOf(env: Env, st: Storage, listing: seq<Hash>, reg: Registration) returns (id: Hash)
    requires reg in RegSet(Outcomes(env, st, listing), |listing|)
    ensures id in listing && ShardOutcome(env, st, id) == Some(reg)
  {
    hide ShardOutcome;
    var outs := Outcomes(env, st, listing);
    var i :| 0 <= i < |listing| && outs[i].Some? && outs[i].value == reg;
    id := listing[i];
  }

  /** With valid shards only, a rebuild fails only if two stored files collide. */
  lemma RebuildFailsOnlyOnCollision(env: Env, st: Storage, listing: seq<Hash>)
    requires AllValid(env, st) && ListsAll(st, listing) && FilesDoNotCollide(env, st)
    ensures RebuildSucceeds(env, st, listing)
  {
    hide ShardOutcome, FilesDoNotCollide, Failures, RegSet;
    var outs := Outcomes(env, st, listing);
    FoldSucceedsIffConsistent(outs, |outs|);
    forall i | 0 <= i < |outs|
      ensures outs[i].Some?
    {
      assert listing[i] in listing;
    }
    forall a, b, i, j | a in RegSet(outs, |outs|) && b in RegSet(outs, |outs|)
                        && 0 <= i < |a.files| && 0 <= j < |b.files|
                        && a.files[i].fileHash == b.files[j].fileHash
      ensures a.files[i].fileSize == b.files[j].fileSize
    {
      var id := OutcomeOf(env, st, listing, a);
      var id' := OutcomeOf(env, st, listing, b);
      if a.files[i].fileSize != b.files[j].fileSize {
        SizesAgreeUnlessCollision(env, st, id, i, id', j);
      }
    }
  }

  /** However incomplete the rebuild: every file of a shard that was registered is served. */
  lemma RegisteredShardsAreServed(env: Env, st: Storage, listing: seq<Hash>, i: nat, k: nat)
    requires i < |listing| && ShardOutcome(env, st, listing[i]).Some?
    requires Accepts(Folded(EMPTY_INDEX, Outcomes(env, st, listing), i), ShardOutcome(env, st, listing[i]).value)
    requires k < |ShardOutcome(env, st, listing[i]).value.files|
    ensures Indexed(env, st, RebuiltIndex(env, st, listing), ShardOutcome(env, st, listing[i]).value.files[k].fileHash)
  {
    hide ShardOutcome, RebuildRef, RefsOf, Register, Accepts, IndexOk, Genuine;
    var outs := Outcomes(env, st, listing);
    var reg, before := outs[i].value, Folded(EMPTY_INDEX, outs, i);
    var h := reg.files[k].fileHash;
    EmptyIndexOk();
    FoldedOk(EMPTY_INDEX, outs, i);
    RegisteredFile(before, reg, k);
    assert Folded(EMPTY_INDEX, outs, i + 1) == Register(before, reg);
    hide Folded;
    FoldedKeepsRef(EMPTY_INDEX, outs, i + 1, |outs|, h, RefOf(reg, reg.files[k]));
    ValidatedRefSound(env, st, listing[i], k);
  }

  lemma RestartKeepsInv(sys: System, s: State, listing: seq<Hash>)
    requires Lawful(sys.gear) && Inv(sys, s) && Enabled(sys, s, Restart(listing)) && Benign(sys, s, Restart(listing))
    ensures Inv(sys, Apply(sys, s, Restart(listing)))
  {
    RebuildFailsOnlyOnCollision(sys.env, s.storage, listing);
    hide StorageOk, Covered, Indexed, Lawful, ListsAll, RebuildSucceeds, Folded, IndexOk, FilesDoNotCollide, Named;
    var s' := Apply(sys, s, Restart(listing));
    EmptyIndexOk();
    FoldedOk(EMPTY_INDEX, Outcomes(sys.env, s.storage, listing), |listing|);
    forall oid | (oid in s'.promised && oid !in s'.storage.raw) || oid in s'.registered
      ensures Recoverable(sys.env, s', oid)
    {
      assert Recoverable(sys.env, s, oid);
      RestartServes(sys.env, s.storage, listing, oid);
    }
  }

  lemma EmptyIndexOk()
    ensures IndexOk(EMPTY_INDEX)
  {
  }

  /** With a configured limit below 4 GiB no conversion starts on an object that is too large. */
  lemma LimitBelow4GiBIsBenign(sys: System, s: State, a: Action)
    requires Lawful(sys.gear) && sys.settings.maxSize < U32 && a.StartConversion? && Enabled(sys, s, a)
    ensures Benign(sys, s, a)
  {
    hide Lawful;
  }

  // ----- all runs -----

  lemma StepKeepsInv(sys: System, s: State, a: Action)
    requires Lawful(sys.gear) && Inv(sys, s) && Enabled(sys, s, a) && Benign(sys, s, a)
    requires LawfulLz4(sys.env)
    ensures Inv(sys, Apply(sys, s, a))
  {
    hide Inv, Benign, Lawful, LawfulLz4, ClientStep, ConversionStep, DownloadNext, Crashed, RebuiltIndex;
    if a.OfClient() {
      ClientKeepsInv(sys, s, a);
    } else if a.OfConversion() {
      ConversionKeepsInv(sys, s, a);
    } else if a.OfDownload() {
      DownloadKeepsInv(sys, s, a);
    } else if a.Crash? {
      CrashKeepsInv(sys, s);
    } else {
      RestartKeepsInv(sys, s, a.listing);
    }
  }

  /** An empty server with any number of conversion workers and clients. */
  function Initial(workers: nat, clients: nat): State {
    State(Storage(map[], map[], map[]), EMPTY_INDEX, true, map[], {}, Idle(workers), Quiet(clients))
  }

  /** Each state follows from the one before by an enabled step. */
  ghost predicate Follows(sys: System, workers: nat, clients: nat, states: seq<State>, actions: seq<Action>)
    requires Lawful(sys.gear)
  {
    && |states| == |actions| + 1 && states[0] == Initial(workers, clients)
    && forall k | 0 <= k < |actions| ::
         Enabled(sys, states[k], actions[k]) && states[k + 1] == Apply(sys, states[k], actions[k])
  }

  /** A run in which no step meets a hash collision or converts an object that the formats cannot hold. */
  ghost predicate IsRun(sys: System, workers: nat, clients: nat, states: seq<State>, actions: seq<Action>)
    requires Lawful(sys.gear)
  {
    && Follows(sys, workers, clients, states, actions)
    && forall k | 0 <= k < |actions| :: Benign(sys, states[k], actions[k])
  }

  lemma InitialInv(sys: System, workers: nat, clients: nat)
    requires Lawful(sys.gear)
    ensures Inv(sys, Initial(workers, clients))
  {
    hide Lawful, Recoverable;
  }

  lemma {:induction false} RunKeepsInv(sys: System, workers: nat, clients: nat, states: seq<State>,
                                       actions: seq<Action>, k: nat)
    requires Lawful(sys.gear) && IsRun(sys, workers, clients, states, actions) && k < |states|
    requires LawfulLz4(sys.env)
    ensures Inv(sys, states[k])
  {
    hide Inv, Benign, Enabled, Apply, Lawful, LawfulLz4;
    if k == 0 {
      InitialInv(sys, workers, clients);
    } else {
      RunKeepsInv(sys, workers, clients, states, actions, k - 1);
      StepKeepsInv(sys, states[k - 1], actions[k - 1]);
    }
  }

  /**
   * Whatever the interleaving and however often the server crashed: while it is up, every object ever stored has its
   * raw blob, or is rebuilt through the references in the index, to the bytes that were stored unless these collide.
   */
  lemma NoObjectIsLost(sys: System, workers: nat, clients: nat, states: seq<State>, actions: seq<Action>, k: nat,
                       oid: Hash)
    requires Lawful(sys.gear) && IsRun(sys, workers, clients, states, actions) && k < |states|
    requires states[k].up && oid in states[k].promised && oid !in states[k].storage.raw
    requires LawfulLz4(sys.env)
    ensures var r := RebuildFile(sys.env, states[k].storage, oid, RefsOf(states[k].index.files, oid));
            && r.Rebuilt? && Genuine(sys.env, oid, r.bytes)
            && (r.bytes == states[k].promised[oid] || Collide(sys.env, oid, r.bytes, states[k].promised[oid]))
  {
    hide IsRun, Lawful, LawfulLz4, RebuildFile, RebuildRef, Genuine, StorageOk, ConversionsOk, DownloadsOk, RefsOf,
         Named;
    RunKeepsInv(sys, workers, clients, states, actions, k);
    var s := states[k];
    assert Recoverable(sys.env, s, oid);
    ServedIffSomeRefWorks(sys.env, s.storage, oid, RefsOf(s.index.files, oid));
    RebuiltFileIsGenuine(sys.env, s.storage, oid, RefsOf(s.index.files, oid));
    NamedIsGenuine(sys.env, oid, s.promised[oid]);
  }

  /**
   * The same of every file of a shard whose upload was acknowledged, whether or not it was ever a raw blob, and however
   * often the server was restarted since: while it is up, the file is rebuilt through the index.
   */
  lemma NoUploadedFileIsLost(sys: System, workers: nat, clients: nat, states: seq<State>, actions: seq<Action>, k: nat,
                             h: Hash)
    requires Lawful(sys.gear) && IsRun(sys, workers, clients, states, actions) && k < |states|
    requires states[k].up && h in states[k].registered
    requires LawfulLz4(sys.env)
    ensures var r := RebuildFile(sys.env, states[k].storage, h, RefsOf(states[k].index.files, h));
            r.Rebuilt? && Genuine(sys.env, h, r.bytes)
  {
    hide IsRun, Lawful, LawfulLz4, RebuildFile, RebuildRef, Genuine, StorageOk, ConversionsOk, DownloadsOk, RefsOf,
         Named;
    RunKeepsInv(sys, workers, clients, states, actions, k);
    var s := states[k];
    assert Recoverable(sys.env, s, h);
    ServedIffSomeRefWorks(sys.env, s.storage, h, RefsOf(s.index.files, h));
    RebuiltFileIsGenuine(sys.env, s.storage, h, RefsOf(s.index.files, h));
  }

  /**
   * A download of an object acknowledged before it was asked for never fails; what is served for a raw upload are the
   * stored bytes unless these collide.
   */
  lemma OwedDownloadsAreServed(sys: System, workers: nat, clients: nat, states: seq<State>, actions: seq<Action>,
                               k: nat, d: nat)
    requires Lawful(sys.gear) && IsRun(sys, workers, clients, states, actions) && k < |states|
             && d < |states[k].downloads|
    requires LawfulLz4(sys.env)
    ensures match states[k].downloads[d]
            case Failed(_, owed) => !owed
            case Served(oid, bytes) =>
              && Genuine(sys.env, oid, bytes)
              && (oid in states[k].promised ==>
                    bytes == states[k].promised[oid] || Collide(sys.env, oid, bytes, states[k].promised[oid]))
            case _ => true
  {
    hide IsRun, Lawful, LawfulLz4, Genuine, StorageOk, ConversionsOk, Recoverable, Named;
    RunKeepsInv(sys, workers, clients, states, actions, k);
    var v := states[k].downloads[d];
    assert DownloadOk(sys.env, states[k], v);
    if v.Served? && v.oid in states[k].promised {
      NamedIsGenuine(sys.env, v.oid, states[k].promised[v.oid]);
    }
  }

  /**
   * In every reachable state every stored shard passes validation, so a rebuild fails only if two stored files collide.
   */
  lemma StoredShardsAreValid(sys: System, workers: nat, clients: nat, states: seq<State>, actions: seq<Action>,
                             k: nat, listing: seq<Hash>)
    requires Lawful(sys.gear) && IsRun(sys, workers, clients, states, actions) && k < |states| && LawfulLz4(sys.env)
    ensures AllValid(sys.env, states[k].storage)
    ensures ListsAll(states[k].storage, listing) && !RebuildSucceeds(sys.env, states[k].storage, listing) ==>
              !FilesDoNotCollide(sys.env, states[k].storage)
  {
    hide IsRun, Lawful, LawfulLz4, ConversionsOk, DownloadsOk, PromisesKept, AllValid, FilesDoNotCollide,
         RebuildSucceeds, ListsAll;
    RunKeepsInv(sys, workers, clients, states, actions, k);
    var st := states[k].storage;
    if ListsAll(st, listing) && FilesDoNotCollide(sys.env, st) {
      RebuildFailsOnlyOnCollision(sys.env, st, listing);
    }
  }

  // ----- what is done, not only what is kept -----

  /** What an accepted request leaves behind. */
  lemma ClientStepsTakeEffect(sys: System, s: State, a: Action)
    requires Lawful(sys.gear) && Inv(sys, s) && a.OfClient() && Enabled(sys, s, a)
    ensures var s' := ClientStep(sys, s, a);
            match a
            case PutRaw(oid, data) =>
              && oid in s'.storage.raw && s'.storage.raw[oid] == data
              && oid in s'.promised && s'.promised[oid] == data
            case PutXorb(key, xorb) => key in s'.storage.xorbs && s'.storage.xorbs[key] == xorb
            case PutShard(shard) =>
              sys.env.DataHash(shard) in s'.storage.shards && s'.storage.shards[sys.env.DataHash(shard)] == shard
            case RegisterShard(id) =>
              var reg := ShardOutcome(sys.env, s.storage, id).value;
              Accepts(s.index, reg) ==>
                forall i | 0 <= i < |reg.files| ::
                  && reg.files[i].fileHash in s'.registered
                  && RefOf(reg, reg.files[i]) in RefsOf(s'.index.files, reg.files[i].fileHash)
  {
    hide Lawful, Accepts, Register, RefsOf, PromisesKept, StorageOk, ConversionsOk, DownloadsOk, ShardOutcome,
         XorbGenuine, ShardValid, Named;
    if a.RegisterShard? {
      var reg := ShardOutcome(sys.env, s.storage, a.id).value;
      if Accepts(s.index, reg) {
        forall i | 0 <= i < |reg.files|
          ensures RefOf(reg, reg.files[i]) in RefsOf(Register(s.index, reg).files, reg.files[i].fileHash)
          ensures reg.files[i].fileHash in FilesOf(reg)
        {
          RegisteredFile(s.index, reg, i);
        }
      }
    }
  }

  /** A restart brings the server up, whatever the rebuild found. */
  lemma RestartComesUp(sys: System, s: State, listing: seq<Hash>)
    requires Lawful(sys.gear) && !s.up && ListsAll(s.storage, listing)
    ensures Enabled(sys, s, Restart(listing)) && Apply(sys, s, Restart(listing)).up
    ensures Apply(sys, s, Restart(listing)).storage == s.storage
    ensures IndexSound(sys.env, s.storage, Apply(sys, s, Restart(listing)).index)
  {
    hide Lawful, ListsAll, IndexSound, Folded;
    RebuiltIndexIsSound(sys.env, s.storage, listing, |listing|);
  }

  function WithDownload(s: State, d: nat, v: Download): State
    requires d < |s.downloads|
  {
    s.(downloads := s.downloads[d := v])
  }

  lemma DownloadStep(sys: System, s: State, d: nat, v: Download, a: Action)
    requires Lawful(sys.gear) && s.up && d < |s.downloads| && a.OfDownload() && a.d == d
    requires Enabled(sys, WithDownload(s, d, v), a)
    ensures Apply(sys, WithDownload(s, d, v), a) == WithDownload(s, d, DownloadNext(sys, WithDownload(s, d, v), a))
  {
    hide Lawful, DownloadNext, DownloadEnabled;
    var next := DownloadNext(sys, WithDownload(s, d, v), a);
    assert s.downloads[d := v][d := next] == s.downloads[d := next];
  }

  /** The steps lead from one state to the other. */
  ghost predicate Leads(sys: System, s: State, actions: seq<Action>, t: State)
    requires Lawful(sys.gear)
    decreases |actions|
  {
    if actions == [] then s == t
    else Enabled(sys, s, actions[0]) && Leads(sys, Apply(sys, s, actions[0]), actions[1..], t)
  }

  lemma LeadsStep(sys: System, s: State, actions: seq<Action>, next: State, t: State)
    requires Lawful(sys.gear) && actions != [] && Enabled(sys, s, actions[0]) && Apply(sys, s, actions[0]) == next
    requires Leads(sys, next, actions[1..], t)
    ensures Leads(sys, s, actions, t)
  {
    hide Apply, Enabled, Lawful;
  }

  lemma LeadsNowhere(sys: System, s: State, actions: seq<Action>)
    requires Lawful(sys.gear) && actions == []
    ensures Leads(sys, s, actions, s)
  {
    hide Lawful;
  }

  lemma Tails(all: seq<Action>)
    ensures forall i | 0 <= i < |all| :: all[i..][0] == all[i] && all[i..][1..] == all[i + 1..]
    ensures all[0..] == all && all[|all|..] == []
  {
  }

  /** An undisturbed download of a raw blob that is there is answered with it. */
  lemma RawIsServed(sys: System, s: State, d: nat, oid: Hash)
    requires Lawful(sys.gear) && s.up && d < |s.downloads| && s.downloads[d].NoDownload? && oid in s.storage.raw
    ensures Leads(sys, s, [Ask(d, oid), CheckRaw(d), ReadRaw(d)], WithDownload(s, d, Served(oid, s.storage.raw[oid])))
  {
    hide Lawful, Apply, Leads;
    var owed := Owed(s, oid);
    var s1, s2 := WithDownload(s, d, Asked(oid, owed)), WithDownload(s, d, RawSeen(oid, owed));
    var t := WithDownload(s, d, Served(oid, s.storage.raw[oid]));
    assert s.downloads[d := NoDownload] == s.downloads && WithDownload(s, d, NoDownload) == s;
    DownloadStep(sys, s, d, NoDownload, Ask(d, oid));
    DownloadStep(sys, s, d, Asked(oid, owed), CheckRaw(d));
    DownloadStep(sys, s, d, RawSeen(oid, owed), ReadRaw(d));
    var all := [Ask(d, oid), CheckRaw(d), ReadRaw(d)];
    Tails(all);
    LeadsNowhere(sys, t, all[3..]);
    LeadsStep(sys, s2, all[2..], t, t);
    LeadsStep(sys, s1, all[1..], s2, t);
    LeadsStep(sys, s, all, s1, t);
  }

  /** What an undisturbed download without a raw blob is answered. */
  function Answer(sys: System, s: State, oid: Hash): Download {
    if oid !in s.index.files then Download.Failed(oid, Owed(s, oid))
    else match RebuildFile(sys.env, s.storage, oid, s.index.files[oid])
      case Rebuilt(bytes) => Served(oid, bytes)
      case Stale => Download.Failed(oid, Owed(s, oid))
      case Failed => Download.Failed(oid, Owed(s, oid))
  }

  /** Without a raw blob, an undisturbed download is answered from the references in the index. */
  lemma IndexIsAsked(sys: System, s: State, d: nat, oid: Hash)
    requires Lawful(sys.gear) && s.up && d < |s.downloads| && s.downloads[d].NoDownload?
    requires oid !in s.storage.raw && oid in s.index.files
    ensures Leads(sys, s, [Ask(d, oid), CheckRaw(d), LookUp(d), Reconstruct(d)],
                  WithDownload(s, d, Answer(sys, s, oid)))
  {
    hide Lawful, Apply, Leads, RebuildFile;
    var owed := Owed(s, oid);
    var s1, s2 := WithDownload(s, d, Asked(oid, owed)), WithDownload(s, d, RawMissing(oid, owed));
    var s3, t := WithDownload(s, d, RefsFound(oid, s.index.files[oid], owed)), WithDownload(s, d, Answer(sys, s, oid));
    assert s.downloads[d := NoDownload] == s.downloads && WithDownload(s, d, NoDownload) == s;
    DownloadStep(sys, s, d, NoDownload, Ask(d, oid));
    DownloadStep(sys, s, d, Asked(oid, owed), CheckRaw(d));
    DownloadStep(sys, s, d, RawMissing(oid, owed), LookUp(d));
    DownloadStep(sys, s, d, RefsFound(oid, s.index.files[oid], owed), Reconstruct(d));
    var all := [Ask(d, oid), CheckRaw(d), LookUp(d), Reconstruct(d)];
    Tails(all);
    LeadsNowhere(sys, t, all[4..]);
    LeadsStep(sys, s3, all[3..], t, t);
    LeadsStep(sys, s2, all[2..], s3, t);
    LeadsStep(sys, s1, all[1..], s2, t);
    LeadsStep(sys, s, all, s1, t);
  }

  /** An object that is neither stored raw nor in the index is answered as not found. */
  lemma UnknownIsNotFound(sys: System, s: State, d: nat, oid: Hash)
    requires Lawful(sys.gear) && s.up && d < |s.downloads| && s.downloads[d].NoDownload?
    requires oid !in s.storage.raw && oid !in s.index.files
    ensures Leads(sys, s, [Ask(d, oid), CheckRaw(d), LookUp(d)], WithDownload(s, d, Download.Failed(oid, Owed(s, oid))))
  {
    hide Lawful, Apply, Leads;
    var owed := Owed(s, oid);
    var s1, s2 := WithDownload(s, d, Asked(oid, owed)), WithDownload(s, d, RawMissing(oid, owed));
    var t := WithDownload(s, d, Download.Failed(oid, owed));
    assert s.downloads[d := NoDownload] == s.downloads && WithDownload(s, d, NoDownload) == s;
    DownloadStep(sys, s, d, NoDownload, Ask(d, oid));
    DownloadStep(sys, s, d, Asked(oid, owed), CheckRaw(d));
    DownloadStep(sys, s, d, RawMissing(oid, owed), LookUp(d));
    var all := [Ask(d, oid), CheckRaw(d), LookUp(d)];
    Tails(all);
    LeadsNowhere(sys, t, all[3..]);
    LeadsStep(sys, s2, all[2..], t, t);
    LeadsStep(sys, s1, all[1..], s2, t);
    LeadsStep(sys, s, all, s1, t);
  }
}
