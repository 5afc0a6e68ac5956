/** A client's upload of a chunked file, step by step, and the download that follows. */
module Upload {
  import opened Bytes
  import opened Primitives
  import opened Chunking
  import opened Compression
  import opened XorbVerify
  import opened XorbBuilder
  import opened XorbRoundTrip
  import opened ShardParser
  import SB = ShardBuilder
  import opened Reconstruction
  import opened RebuildMeaning
  import opened Index
  import opened Validation
  import opened Rebuild
  import opened Conversion
  import opened EndToEnd
  import opened Protocol

  /** The file as the client sends it: its declared hash, and its chunks under one compression scheme. */
  datatype File = File(target: Hash, scheme: Scheme, raws: seq<Bytes>)

  function XorbHashOf(env: Env, f: File): Hash { XorbHashFor(env, f.scheme, f.raws) }

  function ShardIdOf(env: Env, f: File): Hash { ShardIdFor(env, f.scheme, f.target, f.raws) }

  function XorbOfFile(env: Env, f: File): Bytes { XorbBytes(env, f.scheme, f.raws) }

  function ShardOfFile(env: Env, f: File): Bytes { SB.BuildBytes(ContentsFor(env, f.scheme, f.target, f.raws)) }

  function Declared(env: Env, f: File): Registration {
    RegistrationFor(env, f.scheme, f.target, f.raws, |Flatten(f.raws)|)
  }

  /** The formats hold the file, and its declared hash is one of the three forms. */
  ghost predicate Sendable(env: Env, f: File) {
    && Storable(env, f.scheme, f.raws) && IdentOnlyInPayload(env, f.scheme, f.raws)
    && (|| f.target == XetHash(env, f.raws) || f.target == env.shaDigest(Flatten(f.raws))
        || f.target == env.dataDigest(Flatten(f.raws)))
  }

  function WithXorb(env: Env, s: State, f: File): State {
    s.(storage := s.storage.(xorbs := s.storage.xorbs[XorbHashOf(env, f) := XorbOfFile(env, f)]))
  }

  function WithShard(env: Env, s: State, f: File): State {
    var s1 := WithXorb(env, s, f);
    s1.(storage := s1.storage.(shards := s1.storage.shards[ShardIdOf(env, f) := ShardOfFile(env, f)]))
  }

  function Acknowledged(env: Env, s: State, f: File): State {
    WithShard(env, s, f).(index := Register(s.index, Declared(env, f)), registered := s.registered + {f.target})
  }

  lemma XorbIsTaken(sys: System, s: State, f: File)
    requires Lawful(sys.gear) && s.up && Sendable(sys.env, f)
    ensures var a := PutXorb(XorbHashOf(sys.env, f), XorbOfFile(sys.env, f));
            Enabled(sys, s, a) && Apply(sys, s, a) == WithXorb(sys.env, s, f)
  {
    hide Lawful, LawfulLz4, Fits, VerifyFile, VerifyMemory, IdentOnlyInPayload, XorbBytes, XetHash, Flatten;
    BuiltXorbVerifies(sys.env, f.scheme, f.raws);
    InfoHash(sys.env, f);
  }

  lemma InfoHash(env: Env, f: File)
    ensures InfoFor(env, f.scheme, f.raws).xorbHash == XorbHashOf(env, f)
  {
    hide XorbBytes, Flatten;
  }

  lemma ShardIsTrue(env: Env, s: State, f: File)
    requires Sendable(env, f)
    ensures Faithful(env, WithShard(env, s, f).storage, Declared(env, f), f.target, Flatten(f.raws))
    ensures env.DataHash(ShardOfFile(env, f)) == ShardIdOf(env, f) == Declared(env, f).shardId
  {
    hide Storable, IdentOnlyInPayload, XetHash, Flatten, XorbBytes, XorbHashFor, SB.BuildBytes, ContentsFor,
         BuildResultFor, ChunkMappingsFor, Faithful;
    EveryFormIsServed(env, f.scheme, f.target, f.raws, WithShard(env, s, f).storage);
  }

  lemma ShardIsTaken(sys: System, s: State, f: File)
    requires Lawful(sys.gear) && s.up && Sendable(sys.env, f)
    ensures var s1, a := WithXorb(sys.env, s, f), PutShard(ShardOfFile(sys.env, f));
            Enabled(sys, s1, a) && Apply(sys, s1, a) == WithShard(sys.env, s, f)
  {
    hide Lawful, Sendable, Parse, Validate, RebuildRef, Flatten, XorbBytes, XorbHashFor, SB.BuildBytes, ContentsFor,
         Declared, ShardOfFile, ShardIdOf;
    ShardIsTrue(sys.env, s, f);
  }

  lemma OutcomeIsDeclared(env: Env, s: State, f: File)
    requires Sendable(env, f)
    ensures ShardOutcome(env, WithShard(env, s, f).storage, ShardIdOf(env, f)) == Some(Declared(env, f))
  {
    hide Sendable, Parse, Validate, RebuildRef, Flatten, XorbBytes, XorbHashFor, SB.BuildBytes, ContentsFor,
         Declared, ShardOfFile, ShardIdOf, WithShard;
    ShardIsTrue(env, s, f);
  }

  /** The registration of a file not yet in the index is accepted, and adds its one reference. */
  lemma NewFileIsAccepted(idx: IndexState, env: Env, f: File)
    requires f.target !in idx.files
    ensures var reg := Declared(env, f);
            && Accepts(idx, reg) && f.target in Register(idx, reg).files && FilesOf(reg) == {f.target}
            && reg.files == [FileMapping(f.target, 0, |Flatten(f.raws)|)]
            && Register(idx, reg).files[f.target] == [RefOf(reg, reg.files[0])]
  {
    hide AddChunks, BuildResultFor, ChunkMappingsFor, ShardIdFor, Flatten;
    var reg := Declared(env, f);
    assert reg.files[0].fileHash == f.target && AddFiles(idx.files, reg, 0) == idx.files;
  }

  lemma FileIsRegistered(sys: System, s: State, f: File)
    requires Lawful(sys.gear) && s.up && Sendable(sys.env, f) && f.target !in s.index.files
    ensures var s2, a := WithShard(sys.env, s, f), RegisterShard(ShardIdOf(sys.env, f));
            Enabled(sys, s2, a) && Apply(sys, s2, a) == Acknowledged(sys.env, s, f)
  {
    hide Lawful, Sendable, ShardOutcome, Declared, Register, Accepts, ShardIdOf, XorbHashOf, XorbOfFile, ShardOfFile,
         FilesOf;
    OutcomeIsDeclared(sys.env, s, f);
    NewFileIsAccepted(s.index, sys.env, f);
  }

  lemma AnsweredWithFile(sys: System, s: State, f: File)
    requires Sendable(sys.env, f) && f.target !in s.index.files
    ensures var t := Acknowledged(sys.env, s, f);
            f.target in t.index.files && Answer(sys, t, f.target) == Served(f.target, Flatten(f.raws))
  {
    hide Sendable, Parse, Validate, RebuildRef, Flatten, Declared, WithShard, Register, Accepts, ShardIdOf;
    ShardIsTrue(sys.env, s, f);
    NewFileIsAccepted(s.index, sys.env, f);
    var t := Acknowledged(sys.env, s, f);
    assert t.storage == WithShard(sys.env, s, f).storage;
  }

  function Uploading(env: Env, f: File): seq<Action> {
    [PutXorb(XorbHashOf(env, f), XorbOfFile(env, f)), PutShard(ShardOfFile(env, f)), RegisterShard(ShardIdOf(env, f))]
  }

  function Downloading(d: nat, f: File): seq<Action> { [Ask(d, f.target), CheckRaw(d), LookUp(d), Reconstruct(d)] }

  /**
   * Whatever the server holds: sending the xorb and the shard of a file it does not know is accepted at every step, and
   * an undisturbed download by the declared hash, in any of its three forms, is then served with the bytes of the file.
   */
  lemma UploadedFileIsServed(sys: System, s: State, f: File, d: nat) returns (t: State)
    requires Lawful(sys.gear) && s.up && Sendable(sys.env, f)
    requires f.target !in s.index.files && f.target !in s.storage.raw
    requires d < |s.downloads| && s.downloads[d].NoDownload?
    ensures d < |t.downloads| && t.downloads[d] == Served(f.target, Flatten(f.raws)) && f.target in t.registered
    ensures Leads(sys, s, Uploading(sys.env, f) + Downloading(d, f), t)
  {
    hide Lawful, Sendable, Apply, Enabled, Leads, Answer, Register, Flatten, XorbHashOf, XorbOfFile, ShardOfFile,
         ShardIdOf;
    var s1, s2, s3 := WithXorb(sys.env, s, f), WithShard(sys.env, s, f), Acknowledged(sys.env, s, f);
    var all := Uploading(sys.env, f) + Downloading(d, f);
    XorbIsTaken(sys, s, f);
    ShardIsTaken(sys, s, f);
    FileIsRegistered(sys, s, f);
    AnsweredWithFile(sys, s, f);
    IndexIsAsked(sys, s3, d, f.target);
    t := WithDownload(s3, d, Answer(sys, s3, f.target));
    Tails(all);
    assert all[3..] == Downloading(d, f);
    LeadsStep(sys, s2, all[2..], s3, t);
    LeadsStep(sys, s1, all[1..], s2, t);
    LeadsStep(sys, s, all, s1, t);
  }
}
