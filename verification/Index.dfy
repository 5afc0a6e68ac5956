/** The in-memory metadata index: file references and the deduplication table. */
module Index {
  import opened Bytes
  import opened Reconstruction

  datatype FileMapping = FileMapping(fileHash: Hash, fileIndex: nat, fileSize: nat)
  datatype ChunkMapping = ChunkMapping(chunkHash: Hash, xorbHash: Hash, chunkIndex: u32)
  datatype Registration = Registration(shardId: Hash, files: seq<FileMapping>, chunks: seq<ChunkMapping>)

  type FileTable = map<Hash, seq<FileRef>>
  type ChunkTable = map<Hash, (Hash, u32)>

  datatype IndexState = IndexState(files: FileTable, chunks: ChunkTable)

  const EMPTY_INDEX: IndexState := IndexState(map[], map[])

  // ----- what a registration does -----

  function RefOf(reg: Registration, f: FileMapping): FileRef { FileRef(reg.shardId, f.fileIndex, f.fileSize) }

  function RefsOf(files: FileTable, h: Hash): seq<FileRef> { if h in files then files[h] else [] }

  /** The first known reference of the hash, if any, has the same size. */
  predicate AgreesWith(files: FileTable, f: FileMapping) {
    RefsOf(files, f.fileHash) != [] ==> RefsOf(files, f.fileHash)[0].fileSize == f.fileSize
  }

  /** No file hash occurs with two sizes, neither inside the registration nor against the index. */
  predicate SizesAgree(files: FileTable, reg: Registration, n: nat)
    requires n <= |reg.files|
  {
    && (forall i, j | 0 <= i < j < n && reg.files[i].fileHash == reg.files[j].fileHash ::
          reg.files[i].fileSize == reg.files[j].fileSize)
    && (forall i | 0 <= i < n :: AgreesWith(files, reg.files[i]))
  }

  function AddRef(refs: seq<FileRef>, ref: FileRef): seq<FileRef> { if ref in refs then refs else refs + [ref] }

  function AddFiles(files: FileTable, reg: Registration, n: nat): FileTable
    requires n <= |reg.files|
  {
    if n == 0 then files
    else
      var before := AddFiles(files, reg, n - 1);
      var f := reg.files[n - 1];
      before[f.fileHash := AddRef(RefsOf(before, f.fileHash), RefOf(reg, f))]
  }

  function AddChunks(chunks: ChunkTable, added: seq<ChunkMapping>, n: nat): ChunkTable
    requires n <= |added|
  {
    if n == 0 then chunks
    else AddChunks(chunks, added, n - 1)[added[n - 1].chunkHash := (added[n - 1].xorbHash, added[n - 1].chunkIndex)]
  }

  predicate Accepts(st: IndexState, reg: Registration) { SizesAgree(st.files, reg, |reg.files|) }

  /** A rejected registration changes nothing. */
  function Register(st: IndexState, reg: Registration): IndexState {
    if Accepts(st, reg) then
      IndexState(AddFiles(st.files, reg, |reg.files|), AddChunks(st.chunks, reg.chunks, |reg.chunks|))
    else st
  }

  // ----- invariant: distinct references of one size -----

  ghost predicate RefsOk(refs: seq<FileRef>) {
    && (forall i, j | 0 <= i < j < |refs| :: refs[i] != refs[j])
    && (forall i | 0 <= i < |refs| :: refs[i].fileSize == refs[0].fileSize)
  }

  /** Every known hash has references, pairwise distinct and all of one size. */
  ghost predicate IndexOk(st: IndexState) {
    forall h | h in st.files :: st.files[h] != [] && RefsOk(st.files[h])
  }

  lemma AddRefOk(refs: seq<FileRef>, ref: FileRef)
    requires RefsOk(refs) && (refs != [] ==> refs[0].fileSize == ref.fileSize)
    ensures AddRef(refs, ref) != [] && RefsOk(AddRef(refs, ref)) && AddRef(refs, ref)[0].fileSize == ref.fileSize
  {
  }

  lemma AddFilesStep(files: FileTable, reg: Registration, n: nat, h: Hash)
    requires n < |reg.files|
    ensures var before, after := AddFiles(files, reg, n), AddFiles(files, reg, n + 1);
            && (reg.files[n].fileHash == h ==>
                h in after && after[h] == AddRef(RefsOf(before, h), RefOf(reg, reg.files[n])))
            && (reg.files[n].fileHash != h ==> RefsOf(after, h) == RefsOf(before, h) && (h in after <==> h in before))
  {
    hide AddRef;
  }

  /** What adding the first `n` files does to the references of one hash. */
  lemma {:induction false} AddFilesAt(files: FileTable, reg: Registration, n: nat, h: Hash)
    requires n <= |reg.files| && SizesAgree(files, reg, n) && RefsOk(RefsOf(files, h))
             && (h in files ==> files[h] != [])
    ensures var after := AddFiles(files, reg, n);
            && RefsOk(RefsOf(after, h)) && (h in after ==> after[h] != [])
            && (RefsOf(files, h) != [] ==>
                RefsOf(after, h) != [] && RefsOf(after, h)[0].fileSize == RefsOf(files, h)[0].fileSize)
            && ((forall i | 0 <= i < n :: reg.files[i].fileHash != h) ==> RefsOf(after, h) == RefsOf(files, h))
            && (forall i | 0 <= i < n && reg.files[i].fileHash == h ::
                  RefsOf(after, h) != [] && RefsOf(after, h)[0].fileSize == reg.files[i].fileSize)
  {
    hide RefsOk, AddRef, RefsOf;
    if n > 0 {
      AddFilesAt(files, reg, n - 1, h);
      AddFilesStep(files, reg, n - 1, h);
      var refs, f := RefsOf(AddFiles(files, reg, n - 1), h), reg.files[n - 1];
      hide AddFiles;
      RefsPresent(AddFiles(files, reg, n), h);
      if f.fileHash == h {
        assert AgreesWith(files, f);
        assert refs != [] ==> refs[0].fileSize == f.fileSize;
        AddRefOk(refs, RefOf(reg, f));
      }
    }
  }

  lemma RefsPresent(files: FileTable, h: Hash)
    ensures h in files ==> RefsOf(files, h) == files[h]
    ensures h !in files ==> RefsOf(files, h) == []
  {
  }

  /** Registration keeps the index consistent, whether it is accepted or not. */
  lemma RegisterKeepsIndexOk(st: IndexState, reg: Registration)
    requires IndexOk(st)
    ensures IndexOk(Register(st, reg))
  {
    hide AddFiles, AddChunks, RefsOk;
    if Accepts(st, reg) {
      forall h | h in Register(st, reg).files
        ensures Register(st, reg).files[h] != [] && RefsOk(Register(st, reg).files[h])
      {
        NoRefsOk();
        AddFilesAt(st.files, reg, |reg.files|, h);
      }
    }
  }

  lemma NoRefsOk()
    ensures RefsOk([])
  {
  }

  // ----- contents as sets -----

  /** The references a registration brings for a hash. */
  ghost function NewRefs(reg: Registration, h: Hash, n: nat): set<FileRef>
    requires n <= |reg.files|
  {
    set i | 0 <= i < n && reg.files[i].fileHash == h :: RefOf(reg, reg.files[i])
  }

  ghost function RefSet(files: FileTable, h: Hash): set<FileRef> { SetOf(RefsOf(files, h)) }

  ghost function SetOf(refs: seq<FileRef>): set<FileRef> { set r | r in refs }

  lemma {:induction false} AddFilesRefs(files: FileTable, reg: Registration, n: nat, h: Hash)
    requires n <= |reg.files|
    ensures RefSet(AddFiles(files, reg, n), h) == RefSet(files, h) + NewRefs(reg, h, n)
  {
    hide AddRef, RefsOf, NewRefs, SetOf;
    if n > 0 {
      AddFilesRefs(files, reg, n - 1, h);
      NewRefsStep(reg, h, n - 1);
      AddFilesStep(files, reg, n - 1, h);
      RefsPresent(AddFiles(files, reg, n), h);
      hide AddFiles;
      AddRefSet(RefsOf(AddFiles(files, reg, n - 1), h), RefOf(reg, reg.files[n - 1]));
    } else {
      NewRefsNone(reg, h);
    }
  }

  lemma NewRefsNone(reg: Registration, h: Hash)
    ensures NewRefs(reg, h, 0) == {}
  {
  }

  lemma NewRefsStep(reg: Registration, h: Hash, n: nat)
    requires n < |reg.files|
    ensures NewRefs(reg, h, n + 1) ==
            if reg.files[n].fileHash == h then NewRefs(reg, h, n) + {RefOf(reg, reg.files[n])} else NewRefs(reg, h, n)
  {
  }

  lemma AddRefSet(refs: seq<FileRef>, ref: FileRef)
    ensures SetOf(AddRef(refs, ref)) == SetOf(refs) + {ref}
  {
  }

  ghost function ChunkKeys(added: seq<ChunkMapping>): set<Hash> { set c | c in added :: c.chunkHash }

  lemma {:induction false} AddChunksKeys(chunks: ChunkTable, added: seq<ChunkMapping>, n: nat)
    requires n <= |added|
    ensures AddChunks(chunks, added, n).Keys == chunks.Keys + ChunkKeys(added[..n])
  {
    if n > 0 {
      AddChunksKeys(chunks, added, n - 1);
      assert added[..n] == added[..n - 1] + [added[n - 1]];
    }
  }

  /** A chunk is located where the last added mapping of its hash says. */
  lemma {:induction false} LastLocationWins(chunks: ChunkTable, added: seq<ChunkMapping>, n: nat, i: nat)
    requires i < n <= |added| && forall j | i < j < n :: added[j].chunkHash != added[i].chunkHash
    ensures added[i].chunkHash in AddChunks(chunks, added, n)
    ensures AddChunks(chunks, added, n)[added[i].chunkHash] == (added[i].xorbHash, added[i].chunkIndex)
  {
    if i < n - 1 {
      LastLocationWins(chunks, added, n - 1, i);
    }
  }

  /** Every location in the grown table is an old one or one of the added. */
  lemma {:induction false} LocationIsOldOrAdded(chunks: ChunkTable, added: seq<ChunkMapping>, n: nat, h: Hash)
    requires n <= |added| && h in AddChunks(chunks, added, n)
    ensures var at := AddChunks(chunks, added, n)[h];
            (h in chunks && at == chunks[h]) || ChunkMapping(h, at.0, at.1) in added
  {
    if n > 0 && added[n - 1].chunkHash != h {
      LocationIsOldOrAdded(chunks, added, n - 1, h);
    }
  }

  /** What an accepted registration leaves in the index, in terms of sets. */
  lemma RegisteredContents(st: IndexState, reg: Registration, h: Hash)
    requires Accepts(st, reg)
    ensures RefSet(Register(st, reg).files, h) == RefSet(st.files, h) + NewRefs(reg, h, |reg.files|)
    ensures Register(st, reg).chunks.Keys == st.chunks.Keys + ChunkKeys(reg.chunks)
  {
    AddFilesRefs(st.files, reg, |reg.files|, h);
    AddChunksKeys(st.chunks, reg.chunks, |reg.chunks|);
    assert reg.chunks[..|reg.chunks|] == reg.chunks;
  }

  /** Registration never takes a reference away. */
  lemma RegisterKeepsRef(st: IndexState, reg: Registration, h: Hash, r: FileRef)
    requires r in RefsOf(st.files, h)
    ensures r in RefsOf(Register(st, reg).files, h)
  {
    hide RefsOf, AddFiles, AddChunks;
    if Accepts(st, reg) {
      RegisteredContents(st, reg, h);
      assert r in RefSet(st.files, h);
    }
  }

  /** References are only appended: those that were known keep their places. */
  lemma {:induction false} AddFilesPrefix(files: FileTable, reg: Registration, n: nat, h: Hash)
    requires n <= |reg.files|
    ensures RefsOf(files, h) <= RefsOf(AddFiles(files, reg, n), h)
  {
    hide RefsOf;
    if n > 0 {
      AddFilesPrefix(files, reg, n - 1, h);
      AddFilesStep(files, reg, n - 1, h);
      RefsPresent(AddFiles(files, reg, n), h);
    }
  }

  lemma KnownRefsStayFirst(st: IndexState, reg: Registration, h: Hash)
    ensures RefsOf(st.files, h) <= RefsOf(Register(st, reg).files, h)
  {
    hide RefsOf, AddFiles, AddChunks, Accepts;
    AddFilesPrefix(st.files, reg, |reg.files|, h);
  }

  /**
   * A registration is accepted exactly when its files agree in size with one another and with every known reference.
   */
  lemma AcceptedExactly(st: IndexState, reg: Registration)
    requires IndexOk(st)
    ensures Accepts(st, reg)
       <==> && (forall i, j | 0 <= i < |reg.files| && 0 <= j < |reg.files|
                && reg.files[i].fileHash == reg.files[j].fileHash ::
                  reg.files[i].fileSize == reg.files[j].fileSize)
            && (forall i, r | 0 <= i < |reg.files| && r in RefsOf(st.files, reg.files[i].fileHash) ::
                  r.fileSize == reg.files[i].fileSize)
    ensures !Accepts(st, reg) ==> Register(st, reg) == st
  {
    hide AddFiles, AddChunks;
    forall i | 0 <= i < |reg.files|
      ensures AgreesWith(st.files, reg.files[i])
         <==> forall r | r in RefsOf(st.files, reg.files[i].fileHash) :: r.fileSize == reg.files[i].fileSize
    {
      AgreesExactly(st, reg.files[i]);
    }
    hide AgreesWith, RefsOf, IndexOk;
    if Accepts(st, reg) {
      forall i, j | 0 <= i < |reg.files| && 0 <= j < |reg.files| && reg.files[i].fileHash == reg.files[j].fileHash
        ensures reg.files[i].fileSize == reg.files[j].fileSize
      {
      }
    }
  }

  lemma AgreesExactly(st: IndexState, f: FileMapping)
    requires IndexOk(st)
    ensures AgreesWith(st.files, f) <==> forall r | r in RefsOf(st.files, f.fileHash) :: r.fileSize == f.fileSize
  {
    var refs := RefsOf(st.files, f.fileHash);
    if refs != [] {
      assert RefsOk(refs) && refs[0] in refs;
    }
  }

  // ----- idempotence -----

  lemma {:induction false} AddFilesAgain(files: FileTable, reg: Registration, n: nat)
    requires n <= |reg.files|
    requires forall i | 0 <= i < n :: RefOf(reg, reg.files[i]) in RefsOf(files, reg.files[i].fileHash)
    ensures AddFiles(files, reg, n) == files
  {
    if n > 0 {
      AddFilesAgain(files, reg, n - 1);
      assert RefOf(reg, reg.files[n - 1]) in RefsOf(files, reg.files[n - 1].fileHash);
    }
  }

  lemma {:induction false} AddChunksMerge(chunks: ChunkTable, added: seq<ChunkMapping>, n: nat)
    requires n <= |added|
    ensures AddChunks(chunks, added, n) == chunks + AddChunks(map[], added, n)
  {
    if n > 0 {
      AddChunksMerge(chunks, added, n - 1);
    }
  }

  /** Registering the same shard again is accepted and changes nothing. */
  lemma RegisterTwice(st: IndexState, reg: Registration)
    requires IndexOk(st) && Accepts(st, reg)
    ensures Accepts(Register(st, reg), reg) && Register(Register(st, reg), reg) == Register(st, reg)
  {
    hide AddFiles, AddChunks, RefsOk;
    var once := Register(st, reg);
    forall i | 0 <= i < |reg.files|
      ensures RefOf(reg, reg.files[i]) in RefsOf(once.files, reg.files[i].fileHash)
      ensures AgreesWith(once.files, reg.files[i])
    {
      RegisteredFile(st, reg, i);
    }
    AddFilesAgain(once.files, reg, |reg.files|);
    AddChunksMerge(st.chunks, reg.chunks, |reg.chunks|);
    AddChunksMerge(once.chunks, reg.chunks, |reg.chunks|);
  }

  /** Every file of an accepted registration is found afterwards. */
  lemma RegisteredFile(st: IndexState, reg: Registration, i: nat)
    requires IndexOk(st) && Accepts(st, reg) && i < |reg.files|
    ensures RefOf(reg, reg.files[i]) in RefsOf(Register(st, reg).files, reg.files[i].fileHash)
    ensures AgreesWith(Register(st, reg).files, reg.files[i])
  {
    hide AddFiles, AddChunks, RefsOk;
    var h := reg.files[i].fileHash;
    AddFilesRefs(st.files, reg, |reg.files|, h);
    NoRefsOk();
    AddFilesAt(st.files, reg, |reg.files|, h);
    assert RefOf(reg, reg.files[i]) in NewRefs(reg, h, |reg.files|);
    assert RefOf(reg, reg.files[i]) in RefSet(Register(st, reg).files, h);
  }

  // ----- a plain fold over registrations -----

  /** Registrations applied in order; `None` stands for a shard that could not be validated. */
  function Folded(st: IndexState, outs: seq<Option<Registration>>, n: nat): IndexState
    requires n <= |outs|
  {
    if n == 0 then st
    else match outs[n - 1]
      case None => Folded(st, outs, n - 1)
      case Some(reg) => Register(Folded(st, outs, n - 1), reg)
  }

  function Failures(st: IndexState, outs: seq<Option<Registration>>, n: nat): (count: nat)
    requires n <= |outs|
    ensures count <= n
  {
    if n == 0 then 0
    else
      Failures(st, outs, n - 1)
      + if outs[n - 1].Some? && Accepts(Folded(st, outs, n - 1), outs[n - 1].value) then 0 else 1
  }

  ghost function RegSet(outs: seq<Option<Registration>>, n: nat): set<Registration>
    requires n <= |outs|
  {
    set i | 0 <= i < n && outs[i].Some? :: outs[i].value
  }

  /** No two files of the registrations share a hash and differ in size. */
  ghost predicate Consistent(regs: set<Registration>) {
    forall a, b, i, j | a in regs && b in regs && 0 <= i < |a.files| && 0 <= j < |b.files| ::
      a.files[i].fileHash == b.files[j].fileHash ==> a.files[i].fileSize == b.files[j].fileSize
  }

  ghost function AllRefs(regs: set<Registration>, h: Hash): set<FileRef> {
    set a, i | a in regs && 0 <= i < |a.files| && a.files[i].fileHash == h :: RefOf(a, a.files[i])
  }

  ghost function AllChunkKeys(regs: set<Registration>): set<Hash> {
    set a, c | a in regs && c in a.chunks :: c.chunkHash
  }

  lemma RegSetStep(outs: seq<Option<Registration>>, n: nat, h: Hash)
    requires n < |outs| && outs[n].Some?
    ensures var reg, before := outs[n].value, RegSet(outs, n);
            && RegSet(outs, n + 1) == before + {reg}
            && AllRefs(before + {reg}, h) == AllRefs(before, h) + NewRefs(reg, h, |reg.files|)
            && AllChunkKeys(before + {reg}) == AllChunkKeys(before) + ChunkKeys(reg.chunks)
  {
    AllRefsSplit(RegSet(outs, n), outs[n].value, h);
    AllChunkKeysSplit(RegSet(outs, n), outs[n].value);
  }

  lemma AllRefsSplit(regs: set<Registration>, reg: Registration, h: Hash)
    ensures AllRefs(regs + {reg}, h) == AllRefs(regs, h) + NewRefs(reg, h, |reg.files|)
  {
    var all := AllRefs(regs + {reg}, h);
    forall r | r in AllRefs(regs, h) + NewRefs(reg, h, |reg.files|)
      ensures r in all
    {
      if r in NewRefs(reg, h, |reg.files|) {
        var i :| 0 <= i < |reg.files| && reg.files[i].fileHash == h && RefOf(reg, reg.files[i]) == r;
        assert reg in regs + {reg};
      } else {
        var a, i :| a in regs && 0 <= i < |a.files| && a.files[i].fileHash == h && RefOf(a, a.files[i]) == r;
        assert a in regs + {reg};
      }
    }
  }

  lemma AllChunkKeysSplit(regs: set<Registration>, reg: Registration)
    ensures AllChunkKeys(regs + {reg}) == AllChunkKeys(regs) + ChunkKeys(reg.chunks)
  {
    forall k | k in AllChunkKeys(regs) + ChunkKeys(reg.chunks)
      ensures k in AllChunkKeys(regs + {reg})
    {
      if k in ChunkKeys(reg.chunks) {
        var c :| c in reg.chunks && c.chunkHash == k;
        assert reg in regs + {reg};
      } else {
        var a, c :| a in regs && c in a.chunks && c.chunkHash == k;
        assert a in regs + {reg};
      }
    }
  }

  lemma {:induction false} FoldedOk(st: IndexState, outs: seq<Option<Registration>>, n: nat)
    requires n <= |outs| && IndexOk(st)
    ensures IndexOk(Folded(st, outs, n))
  {
    hide IndexOk, Register;
    if n > 0 {
      FoldedOk(st, outs, n - 1);
      if outs[n - 1].Some? {
        RegisterKeepsIndexOk(Folded(st, outs, n - 1), outs[n - 1].value);
      }
    }
  }

  /** A fold without failures leaves exactly the references and chunk keys of its registrations. */
  lemma {:induction false} FoldedContents(outs: seq<Option<Registration>>, n: nat, h: Hash)
    requires n <= |outs| && Failures(EMPTY_INDEX, outs, n) == 0
    ensures RefSet(Folded(EMPTY_INDEX, outs, n).files, h) == AllRefs(RegSet(outs, n), h)
    ensures Folded(EMPTY_INDEX, outs, n).chunks.Keys == AllChunkKeys(RegSet(outs, n))
  {
    hide Register, Accepts, AllRefs, AllChunkKeys, RegSet, RefSet;
    if n > 0 {
      FoldedContents(outs, n - 1, h);
      RegSetStep(outs, n - 1, h);
      RegisteredContents(Folded(EMPTY_INDEX, outs, n - 1), outs[n - 1].value, h);
    } else {
      NothingFolded(outs, h);
    }
  }

  lemma NothingFolded(outs: seq<Option<Registration>>, h: Hash)
    ensures RegSet(outs, 0) == {} && AllRefs({}, h) == {} && AllChunkKeys({}) == {}
    ensures RefSet(EMPTY_INDEX.files, h) == {} && EMPTY_INDEX.chunks.Keys == {}
  {
  }

  lemma OneSize(files: FileTable, h: Hash, a: FileRef, b: FileRef)
    requires RefsOk(RefsOf(files, h)) && a in RefSet(files, h) && b in RefSet(files, h)
    ensures a.fileSize == b.fileSize
  {
  }

  /** Shards that were all accepted agree on every file size. */
  lemma AcceptedAreConsistent(outs: seq<Option<Registration>>, n: nat)
    requires n <= |outs| && Failures(EMPTY_INDEX, outs, n) == 0
    ensures Consistent(RegSet(outs, n))
  {
    hide Folded, Failures, RegSet, AllRefs, RefSet, RefsOk;
    var regs, files := RegSet(outs, n), Folded(EMPTY_INDEX, outs, n).files;
    FoldedOk(EMPTY_INDEX, outs, n);
    forall a, b, i, j | a in regs && b in regs && 0 <= i < |a.files| && 0 <= j < |b.files|
                        && a.files[i].fileHash == b.files[j].fileHash
      ensures a.files[i].fileSize == b.files[j].fileSize
    {
      var h := a.files[i].fileHash;
      FoldedContents(outs, n, h);
      RefIncluded(regs, a, i);
      RefIncluded(regs, b, j);
      NoRefsOk();
      OneSize(files, h, RefOf(a, a.files[i]), RefOf(b, b.files[j]));
    }
  }

  lemma RefIncluded(regs: set<Registration>, a: Registration, i: nat)
    requires a in regs && i < |a.files|
    ensures RefOf(a, a.files[i]) in AllRefs(regs, a.files[i].fileHash)
  {
  }

  /** Against an index holding consistent registrations, one that is consistent with them is accepted. */
  lemma ConsistentIsAccepted(st: IndexState, regs: set<Registration>, reg: Registration)
    requires forall h :: RefSet(st.files, h) == AllRefs(regs, h)
    requires Consistent(regs + {reg})
    ensures Accepts(st, reg)
  {
    assert reg in regs + {reg};
    forall i | 0 <= i < |reg.files|
      ensures AgreesWith(st.files, reg.files[i])
    {
      KnownSizeAgrees(st, regs, reg, i);
    }
  }

  lemma KnownSizeAgrees(st: IndexState, regs: set<Registration>, reg: Registration, i: nat)
    requires i < |reg.files| && RefSet(st.files, reg.files[i].fileHash) == AllRefs(regs, reg.files[i].fileHash)
    requires Consistent(regs + {reg})
    ensures AgreesWith(st.files, reg.files[i])
  {
    var h := reg.files[i].fileHash;
    var refs := RefsOf(st.files, h);
    if refs != [] {
      assert refs[0] in RefSet(st.files, h);
      var a, j :| a in regs && 0 <= j < |a.files| && a.files[j].fileHash == h && RefOf(a, a.files[j]) == refs[0];
      assert a in regs + {reg} && reg in regs + {reg};
    }
  }

  /** A fold has no failures exactly when every shard validates and all of them agree on file sizes. */
  lemma {:induction false} FoldSucceedsIffConsistent(outs: seq<Option<Registration>>, n: nat)
    requires n <= |outs|
    ensures Failures(EMPTY_INDEX, outs, n) == 0
            <==> (forall i | 0 <= i < n :: outs[i].Some?) && Consistent(RegSet(outs, n))
  {
    hide Folded, Consistent, RegSet, Accepts;
    if Failures(EMPTY_INDEX, outs, n) == 0 {
      AcceptedAreConsistent(outs, n);
      if n > 0 {
        FoldSucceedsIffConsistent(outs, n - 1);
      }
    } else if n > 0 && (forall i | 0 <= i < n :: outs[i].Some?) && Consistent(RegSet(outs, n)) {
      ConsistentPrefix(outs, n - 1);
      FoldSucceedsIffConsistent(outs, n - 1);
      var before, regs := Folded(EMPTY_INDEX, outs, n - 1), RegSet(outs, n - 1);
      forall h
        ensures RefSet(before.files, h) == AllRefs(regs, h)
      {
        FoldedContents(outs, n - 1, h);
      }
      ConsistentIsAccepted(before, regs, outs[n - 1].value);
    }
  }

  lemma ConsistentPrefix(outs: seq<Option<Registration>>, n: nat)
    requires n < |outs| && outs[n].Some? && Consistent(RegSet(outs, n + 1))
    ensures Consistent(RegSet(outs, n)) && RegSet(outs, n + 1) == RegSet(outs, n) + {outs[n].value}
  {
    RegSetStep(outs, n, ZERO_HASH);
    assert RegSet(outs, n) <= RegSet(outs, n + 1);
  }

  /** The listing order does not matter: same shards, same outcome, same references and chunk keys. */
  lemma OrderDoesNotMatter(a: seq<Option<Registration>>, b: seq<Option<Registration>>, h: Hash)
    requires forall out :: out in a <==> out in b
    ensures Failures(EMPTY_INDEX, a, |a|) == 0 <==> Failures(EMPTY_INDEX, b, |b|) == 0
    ensures Failures(EMPTY_INDEX, a, |a|) == 0 ==>
              var x, y := Folded(EMPTY_INDEX, a, |a|), Folded(EMPTY_INDEX, b, |b|);
              RefSet(x.files, h) == RefSet(y.files, h) && x.chunks.Keys == y.chunks.Keys
  {
    hide Failures, Folded, Consistent, RefSet;
    SameRegs(a, b);
    FoldSucceedsIffConsistent(a, |a|);
    FoldSucceedsIffConsistent(b, |b|);
    if Failures(EMPTY_INDEX, a, |a|) == 0 {
      FoldedContents(a, |a|, h);
      FoldedContents(b, |b|, h);
    }
  }

  lemma SameRegs(a: seq<Option<Registration>>, b: seq<Option<Registration>>)
    requires forall out :: out in a <==> out in b
    ensures RegSet(a, |a|) == RegSet(b, |b|)
    ensures (forall i | 0 <= i < |a| :: a[i].Some?) <==> (forall i | 0 <= i < |b| :: b[i].Some?)
  {
    RegsIncluded(a, b);
    RegsIncluded(b, a);
  }

  lemma RegsIncluded(a: seq<Option<Registration>>, b: seq<Option<Registration>>)
    requires forall out :: out in a ==> out in b
    ensures RegSet(a, |a|) <= RegSet(b, |b|)
    ensures (forall i | 0 <= i < |b| :: b[i].Some?) ==> (forall i | 0 <= i < |a| :: a[i].Some?)
  {
    forall i | 0 <= i < |a|
      ensures a[i] in b
    {
      assert a[i] in a;
    }
  }

  lemma {:induction false} FoldedKeepsRef(st: IndexState, outs: seq<Option<Registration>>, i: nat, n: nat, h: Hash,
                                          r: FileRef)
    requires i <= n <= |outs| && r in RefsOf(Folded(st, outs, i).files, h)
    ensures r in RefsOf(Folded(st, outs, n).files, h)
  {
    hide RefsOf, Register;
    if i < n {
      FoldedKeepsRef(st, outs, i, n - 1, h, r);
      if outs[n - 1].Some? {
        RegisterKeepsRef(Folded(st, outs, n - 1), outs[n - 1].value, h, r);
      }
    }
  }

  // ----- the index object -----

  class MetadataIndex {
    var files: FileTable
    var chunks: ChunkTable

    function State(): IndexState
      reads this
    {
      IndexState(files, chunks)
    }

    constructor ()
      ensures State() == EMPTY_INDEX
    {
      files, chunks := map[], map[];
    }

    /** All sizes are checked before either table is touched. */
    method RegisterVerifiedShard(reg: Registration) returns (ok: bool)
      modifies this
      ensures ok == Accepts(old(State()), reg)
      ensures State() == Register(old(State()), reg)
    {
      hide SizesAgree;
      ok := CheckSizes(files, reg);
      if !ok {
        return;
      }
      for i := 0 to |reg.files|
        invariant files == AddFiles(old(files), reg, i) && chunks == old(chunks)
      {
        var f := reg.files[i];
        var entry := if f.fileHash in files then files[f.fileHash] else [];
        var ref := FileRef(reg.shardId, f.fileIndex, f.fileSize);
        if ref !in entry {
          entry := entry + [ref];
        }
        files := files[f.fileHash := entry];
      }
      for i := 0 to |reg.chunks|
        invariant files == AddFiles(old(files), reg, |reg.files|) && chunks == AddChunks(old(chunks), reg.chunks, i)
      {
        var c := reg.chunks[i];
        chunks := chunks[c.chunkHash := (c.xorbHash, c.chunkIndex)];
      }
    }
  }

  /** Sizes seen so far: exactly those of the first `n` files. */
  ghost predicate SeenSizes(reg: Registration, n: nat, seen: map<Hash, nat>)
    requires n <= |reg.files|
  {
    && (forall i | 0 <= i < n :: reg.files[i].fileHash in seen && seen[reg.files[i].fileHash] == reg.files[i].fileSize)
    && (forall h | h in seen :: exists i :: 0 <= i < n && reg.files[i].fileHash == h)
  }

  method CheckSizes(files: FileTable, reg: Registration) returns (ok: bool)
    ensures ok == SizesAgree(files, reg, |reg.files|)
  {
    hide SizesAgree, SeenSizes;
    var seen: map<Hash, nat> := map[];
    NothingSeen(files, reg);
    for i := 0 to |reg.files|
      invariant SizesAgree(files, reg, i) && SeenSizes(reg, i, seen)
    {
      var f := reg.files[i];
      SizesStep(files, reg, i, seen);
      if f.fileHash in seen && seen[f.fileHash] != f.fileSize {
        return false;
      }
      if f.fileHash in files && files[f.fileHash] != [] && files[f.fileHash][0].fileSize != f.fileSize {
        return false;
      }
      seen := seen[f.fileHash := f.fileSize];
    }
    ok := true;
  }

  lemma NothingSeen(files: FileTable, reg: Registration)
    ensures SizesAgree(files, reg, 0) && SeenSizes(reg, 0, map[])
  {
  }

  lemma SizesStep(files: FileTable, reg: Registration, n: nat, seen: map<Hash, nat>)
    requires n < |reg.files| && SizesAgree(files, reg, n) && SeenSizes(reg, n, seen)
    ensures var f := reg.files[n];
            var fits := (f.fileHash in seen ==> seen[f.fileHash] == f.fileSize) && AgreesWith(files, f);
            && (fits ==> SizesAgree(files, reg, n + 1) && SeenSizes(reg, n + 1, seen[f.fileHash := f.fileSize]))
            && (!fits ==> !SizesAgree(files, reg, |reg.files|))
  {
    hide AgreesWith;
    var f := reg.files[n];
    if f.fileHash in seen && seen[f.fileHash] != f.fileSize {
      var i :| 0 <= i < n && reg.files[i].fileHash == f.fileHash;
      assert reg.files[i].fileSize != f.fileSize;
    } else if AgreesWith(files, f) {
      SeenStep(reg, n, seen);
    }
  }

  lemma SeenStep(reg: Registration, n: nat, seen: map<Hash, nat>)
    requires n < |reg.files| && SeenSizes(reg, n, seen)
    requires reg.files[n].fileHash in seen ==> seen[reg.files[n].fileHash] == reg.files[n].fileSize
    ensures SeenSizes(reg, n + 1, seen[reg.files[n].fileHash := reg.files[n].fileSize])
  {
    var seen' := seen[reg.files[n].fileHash := reg.files[n].fileSize];
    forall h | h in seen'
      ensures exists i :: 0 <= i < n + 1 && reg.files[i].fileHash == h
    {
      if h != reg.files[n].fileHash {
        var i :| 0 <= i < n && reg.files[i].fileHash == h;
      }
    }
  }
}
