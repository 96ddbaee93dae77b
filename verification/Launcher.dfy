/** The launcher's cache protocol as file-system steps, with a crash possible between any two. */
module Launcher {
  import opened Text

  type Chunk = string
  type Content = seq<Chunk>

  /** A file that is being, or has been, received: the chunks on disk and the whole body. */
  datatype File = File(written: Content, whole: Content) {
    predicate Truncated() { written != whole }
  }

  /** An unpacked directory: the archive it came from, the entries unpacked so far, and its data/ directory. */
  datatype Tree = Tree(source: Content, entries: seq<string>, data: Option<string>)

  /** The cache directory has one file per release asset and one payload for release and local archives each. */
  datatype Asset = Tarball | Sums
  datatype Place = Release | Local

  datatype Disk = Disk(tarball: Option<File>, tarballPartial: Option<File>, sums: Option<File>,
      sumsPartial: Option<File>,
                       payload: Option<Tree>, staging: Option<Tree>, localPayload: Option<Tree>,
                           localStaging: Option<Tree>)

  const EMPTY := Disk(None, None, None, None, None, None, None, None)

  /** What the protocol treats as given: digests, the archive's entry in a checksum file, and archive listings. */
  datatype World = World(digest: Content -> string, expected: Content -> Option<string>,
      listing: Content -> seq<string>)

  function Final(d: Disk, a: Asset): Option<File> { if a == Tarball then d.tarball else d.sums }
  function Partial(d: Disk, a: Asset): Option<File> { if a == Tarball then d.tarballPartial else d.sumsPartial }
  function Payload(d: Disk, p: Place): Option<Tree> { if p == Release then d.payload else d.localPayload }
  function Staging(d: Disk, p: Place): Option<Tree> { if p == Release then d.staging else d.localStaging }

  function WithFinal(d: Disk, a: Asset, f: Option<File>): Disk {
    if a == Tarball then d.(tarball := f) else d.(sums := f)
  }
  function WithPartial(d: Disk, a: Asset, f: Option<File>): Disk {
    if a == Tarball then d.(tarballPartial := f) else d.(sumsPartial := f)
  }
  function WithPayload(d: Disk, p: Place, t: Option<Tree>): Disk {
    if p == Release then d.(payload := t) else d.(localPayload := t)
  }
  function WithStaging(d: Disk, p: Place, t: Option<Tree>): Disk {
    if p == Release then d.(staging := t) else d.(localStaging := t)
  }

  /** The data a server would find. */
  function DataOf(t: Option<Tree>): Option<string> { if t.Some? then t.value.data else None }

  // ---------- steps ----------

  /** The changes to the file system; each one is atomic, and a crash may come before any of them. */
  datatype Op =
    | OpenPartial(asset: Asset, whole: Content)
    | WriteChunk(asset: Asset)
    | RenamePartial(asset: Asset)
    | DropPartial(asset: Asset)
    | DropTarball
    | ClearStaging(place: Place)
    | MakeStaging(place: Place, source: Content)
    | UnpackEntry(place: Place)
    | DropStagedData(place: Place)
    | MoveData(place: Place)
    | DropPayload(place: Place)
    | RenameStaging(place: Place)

  /** An unpacked data/ entry is the empty directory the archives ship. */
  function Unpacked(t: Tree, w: World): Tree {
    var list := w.listing(t.source);
    if |t.entries| < |list| then
      t.(entries := t.entries + [list[|t.entries|]], data := if list[|t.entries|] == "data" then Some("") else t.data)
    else t
  }

  /** A directory that is there is not made anew, and nothing is moved onto an entry that is there. */
  function Step(d: Disk, op: Op, w: World): Disk {
    match op
    case OpenPartial(a, whole) => WithPartial(d, a, Some(File([], whole)))
    case WriteChunk(a) =>
      (match Partial(d, a)
       case Some(f) =>
         if |f.written| < |f.whole| then WithPartial(d, a,
             Some(f.(written := f.written + [f.whole[|f.written|]]))) else d
       case None => d)
    case RenamePartial(a) => if Partial(d, a).Some? then WithPartial(WithFinal(d, a, Partial(d, a)), a, None) else d
    case DropPartial(a) => WithPartial(d, a, None)
    case DropTarball => d.(tarball := None)
    case ClearStaging(p) => WithStaging(d, p, None)
    case MakeStaging(p, source) => if Staging(d, p) == None then WithStaging(d, p, Some(Tree(source, [], None))) else d
    case UnpackEntry(p) => if Staging(d, p).Some? then WithStaging(d, p, Some(Unpacked(Staging(d, p).value, w))) else d
    case DropStagedData(p) => if Staging(d, p).Some? then
        WithStaging(d, p, Some(Staging(d, p).value.(data := None))) else d
    case MoveData(p) =>
      if Staging(d, p).Some? && DataOf(Staging(d, p)) == None && Payload(d, p).Some? then
        WithPayload(WithStaging(d, p, Some(Staging(d, p).value.(data := Payload(d, p).value.data))), p,
                    Some(Payload(d, p).value.(data := None)))
      else d
    case DropPayload(p) => WithPayload(d, p, None)
    case RenameStaging(p) =>
      if Staging(d, p).Some? && Payload(d, p) == None then WithStaging(WithPayload(d, p, Staging(d, p)), p, None) else d
  }

  function Exec(d: Disk, ops: seq<Op>, w: World): Disk
    decreases |ops|
  {
    if ops == [] then d else Exec(Step(d, ops[0], w), ops[1..], w)
  }

  function Repeat(op: Op, n: nat): (r: seq<Op>)
    ensures |r| == n
  {
    if n == 0 then [] else [op] + Repeat(op, n - 1)
  }

  // ---------- what a run does ----------

  /** One attempt to fetch an asset: no usable answer, a definitive refusal, a body that breaks off
      after some chunks, or the whole body. */
  datatype Answer = NoAnswer | Refused | Broken(body: Content, sent: nat) | Served(body: Content)

  type Replies = nat -> Answer

  const DOWNLOAD_ATTEMPTS := 3

  datatype Plan = Plan(ops: seq<Op>, ok: bool)

  /** `downloadOnce`: the partial file is renamed only after the whole body arrived, and removed in any case. */
  function AttemptOps(a: Asset, answer: Answer): seq<Op> {
    match answer
    case Served(body) => [OpenPartial(a, body)] + Repeat(WriteChunk(a), |body|) + [RenamePartial(a), DropPartial(a)]
    case Broken(body, sent) => [OpenPartial(a, body)] + Repeat(WriteChunk(a), sent) + [DropPartial(a)]
    case _ => []
  }

  /** `download` from an attempt on: definitive refusals and the third failure end it. */
  function DownloadPlan(a: Asset, replies: Replies, attempt: nat): Plan
    requires 1 <= attempt <= DOWNLOAD_ATTEMPTS
    decreases DOWNLOAD_ATTEMPTS - attempt
  {
    var answer := replies(attempt);
    if answer.Served? then Plan(AttemptOps(a, answer), true)
    else if answer.Refused? || attempt >= DOWNLOAD_ATTEMPTS then Plan(AttemptOps(a, answer), false)
    else
      var next := DownloadPlan(a, replies, attempt + 1);
      Plan(AttemptOps(a, answer) + next.ops, next.ok)
  }

  /** `preservePayloadData` then the swap. */
  function SwapOps(d: Disk, p: Place): seq<Op> {
    (if Payload(d, p).Some? && Payload(d, p).value.data.Some? then [DropStagedData(p), MoveData(p)] else [])
    + [DropPayload(p), RenameStaging(p)]
  }

  /** Unpacking may fail after some entries. */
  function UnpackOps(p: Place, source: Content, failsAfter: Option<nat>, w: World): seq<Op> {
    var n := |w.listing(source)|;
    [ClearStaging(p), MakeStaging(p, source)]
    + Repeat(UnpackEntry(p), if failsAfter.Some? && failsAfter.value < n then failsAfter.value else n)
  }

  function ExtractPlan(d: Disk, p: Place, source: Content, failsAfter: Option<nat>, w: World): Plan {
    if failsAfter.Some? then Plan(UnpackOps(p, source, failsAfter, w), false)
    else Plan(UnpackOps(p, source, failsAfter, w) + SwapOps(d, p), true)
  }

  datatype LocalArchive = LocalArchive(content: Content, present: bool, pinned: Option<string>)

  /** The outside of one run: its arguments, the network, the provenance verdict and the unpacker. */
  datatype Env = Env(archive: Option<LocalArchive>, verifyCache: bool, tarballReplies: Replies, sumsReplies: Replies,
                     provenanceRejected: bool, unpackFailsAfter: Option<nat>)

  /** After both files are there: checksum entry, digest, provenance, unpacking. */
  function VerifyPlan(d: Disk, env: Env, w: World): Plan
    requires d.tarball.Some? && d.sums.Some?
  {
    var expected := w.expected(d.sums.value.written);
    if expected == None then Plan([], false)
    else if w.digest(d.tarball.value.written) != expected.value then Plan([DropTarball], false)
    else if env.provenanceRejected then Plan([], false)
    else ExtractPlan(d, Release, d.tarball.value.written, env.unpackFailsAfter, w)
  }

  /** Downloads an asset unless it is there already. */
  function FetchPlan(d: Disk, a: Asset, replies: Replies): Plan {
    if Final(d, a).Some? then Plan([], true) else DownloadPlan(a, replies, 1)
  }

  function PreparePlan(d: Disk, env: Env, w: World): Plan {
    var tarball := FetchPlan(d, Tarball, env.tarballReplies);
    if !tarball.ok then tarball
    else
      var d1 := Exec(d, tarball.ops, w);
      var sums := FetchPlan(d1, Sums, env.sumsReplies);
      if !sums.ok then Plan(tarball.ops + sums.ops, false)
      else
        var d2 := Exec(d1, sums.ops, w);
        FetchedBoth(d, env, w);
        var verify := VerifyPlan(d2, env, w);
        Plan(tarball.ops + sums.ops + verify.ops, verify.ok)
  }

  predicate HasServer(t: Option<Tree>) { t.Some? && "server.js" in t.value.entries }

  function PlaceOf(env: Env): Place { if env.archive.Some? then Local else Release }

  /** The file-system part of `main`; `ok` means it came to the server check. */
  function RunPlan(d: Disk, env: Env, w: World): Plan {
    match env.archive
    case Some(archive) =>
      if !archive.present then Plan([], false)
      else if archive.pinned.Some? && w.digest(archive.content) != archive.pinned.value then Plan([], false)
      else ExtractPlan(d, Local, archive.content, env.unpackFailsAfter, w)
    case None =>
      if !env.verifyCache && HasServer(d.payload) then Plan([], true) else PreparePlan(d, env, w)
  }

  function AfterRun(d: Disk, env: Env, w: World): Disk { Exec(d, RunPlan(d, env, w).ops, w) }

  /** The server is started: the run came to the check and the payload has a server. */
  predicate Starts(d: Disk, env: Env, w: World) {
    RunPlan(d, env, w).ok && HasServer(Payload(AfterRun(d, env, w), PlaceOf(env)))
  }

  // ---------- executing steps ----------

  lemma {:induction false} ExecAppend(d: Disk, a: seq<Op>, b: seq<Op>, w: World)
    ensures Exec(d, a + b, w) == Exec(Exec(d, a, w), b, w)
    decreases |a|
  {
    if a == [] {
      assert a + b == b;
      assert Exec(d, a, w) == d;
    } else {
      ExecAppend(Step(d, a[0], w), a[1..], b, w);
      assert (a + b)[0] == a[0] && (a + b)[1..] == a[1..] + b;
      assert Exec(d, a + b, w) == Exec(Step(d, a[0], w), (a + b)[1..], w);
    }
  }

  lemma {:induction false} Writes(d: Disk, a: Asset, n: nat, w: World)
    requires Partial(d, a).Some? && |Partial(d, a).value.written| + n <= |Partial(d, a).value.whole|
    requires Partial(d, a).value.written <= Partial(d, a).value.whole
    ensures var f := Partial(d, a).value;
            Exec(d, Repeat(WriteChunk(a), n), w) == WithPartial(d, a, Some(File(f.whole[..|f.written| + n], f.whole)))
    decreases n
  {
    var f := Partial(d, a).value;
    assert f.written == f.whole[..|f.written|];
    if n > 0 {
      var d1 := Step(d, WriteChunk(a), w);
      assert f.written + [f.whole[|f.written|]] == f.whole[..|f.written| + 1];
      Writes(d1, a, n - 1, w);
      assert Repeat(WriteChunk(a), n)[1..] == Repeat(WriteChunk(a), n - 1);
    }
  }

  lemma Exec2(d: Disk, x: Op, y: Op, w: World)
    ensures Exec(d, [x, y], w) == Step(Step(d, x, w), y, w)
  {
    assert [x, y][1..] == [y] && [y][1..] == [];
    assert Exec(d, [x, y], w) == Exec(Step(d, x, w), [y], w) == Exec(Step(Step(d, x, w), y, w), [], w);
  }

  lemma ExecOne(d: Disk, op: Op, w: World)
    ensures Exec(d, [op], w) == Step(d, op, w)
  {
    assert [op][1..] == [];
    assert Exec(d, [op], w) == Exec(Step(d, op, w), [], w);
  }

  /** A served attempt leaves the whole body under the final name and no partial file. */
  lemma ServedAttempt(d: Disk, a: Asset, body: Content, w: World)
    ensures Exec(d, AttemptOps(a, Served(body)), w) == WithPartial(WithFinal(d, a, Some(File(body, body))), a, None)
  {
    var d1 := Step(d, OpenPartial(a, body), w);
    var writes := Repeat(WriteChunk(a), |body|);
    ExecAppend(d, [OpenPartial(a, body)], writes, w);
    assert Exec(d, [OpenPartial(a, body)], w) == Exec(d1, [], w) == d1;
    Writes(d1, a, |body|, w);
    ExecAppend(d, [OpenPartial(a, body)] + writes, [RenamePartial(a), DropPartial(a)], w);
    var d2 := WithPartial(d, a, Some(File(body, body)));
    assert body[..|body|] == body && Exec(d1, writes, w) == d2;
    Exec2(d2, RenamePartial(a), DropPartial(a), w);
    assert AttemptOps(a, Served(body)) == [OpenPartial(a, body)] + writes + [RenamePartial(a), DropPartial(a)];
  }

  lemma {:induction false} DownloadSucceeds(d: Disk, a: Asset, replies: Replies, attempt: nat, w: World)
    requires 1 <= attempt <= DOWNLOAD_ATTEMPTS && DownloadPlan(a, replies, attempt).ok
    ensures Final(Exec(d, DownloadPlan(a, replies, attempt).ops, w), a).Some?
    decreases DOWNLOAD_ATTEMPTS - attempt
  {
    var answer := replies(attempt);
    if answer.Served? {
      ServedAttempt(d, a, answer.body, w);
    } else {
      var next := DownloadPlan(a, replies, attempt + 1);
      ExecAppend(d, AttemptOps(a, answer), next.ops, w);
      DownloadSucceeds(Exec(d, AttemptOps(a, answer), w), a, replies, attempt + 1, w);
    }
  }

  lemma FetchedBoth(d: Disk, env: Env, w: World)
    requires FetchPlan(d, Tarball, env.tarballReplies).ok
    requires FetchPlan(Exec(d, FetchPlan(d, Tarball, env.tarballReplies).ops, w), Sums, env.sumsReplies).ok
    ensures var d1 := Exec(d, FetchPlan(d, Tarball, env.tarballReplies).ops, w);
            var d2 := Exec(d1, FetchPlan(d1, Sums, env.sumsReplies).ops, w);
            d1.tarball.Some? && d2.tarball == d1.tarball && d2.sums.Some?
  {
    var d1 := Exec(d, FetchPlan(d, Tarball, env.tarballReplies).ops, w);
    if d.tarball == None { DownloadSucceeds(d, Tarball, env.tarballReplies, 1, w); }
    if d1.sums == None {
      DownloadSucceeds(d1, Sums, env.sumsReplies, 1, w);
      DownloadTouches(Sums, env.sumsReplies, 1);
      OnlyAsset(d1, Sums, DownloadPlan(Sums, env.sumsReplies, 1).ops, w);
    }
  }

  /** The steps of a download of one asset. */
  predicate Touches(op: Op, a: Asset) {
    match op
    case OpenPartial(x, _) => x == a
    case WriteChunk(x) => x == a
    case RenamePartial(x) => x == a
    case DropPartial(x) => x == a
    case _ => false
  }

  lemma AttemptTouches(a: Asset, answer: Answer)
    ensures forall i :: 0 <= i < |AttemptOps(a, answer)| ==> Touches(AttemptOps(a, answer)[i], a)
  {
    match answer {
      case Served(body) => RepeatIs(WriteChunk(a), |body|);
      case Broken(_, sent) => RepeatIs(WriteChunk(a), sent);
      case _ =>
    }
  }

  lemma {:induction false} DownloadTouches(a: Asset, replies: Replies, attempt: nat)
    requires 1 <= attempt <= DOWNLOAD_ATTEMPTS
    ensures forall i :: 0 <= i < |DownloadPlan(a, replies, attempt).ops| ==>
            Touches(DownloadPlan(a, replies, attempt).ops[i], a)
    decreases DOWNLOAD_ATTEMPTS - attempt
  {
    var answer := replies(attempt);
    AttemptTouches(a, answer);
    if !answer.Served? && !answer.Refused? && attempt < DOWNLOAD_ATTEMPTS {
      DownloadTouches(a, replies, attempt + 1);
    }
  }

  lemma {:induction false} RepeatIs(op: Op, n: nat)
    ensures forall i :: 0 <= i < n ==> Repeat(op, n)[i] == op
  {
    if n > 0 { RepeatIs(op, n - 1); }
  }

  /** Downloading one asset leaves everything else on the disk alone. */
  lemma {:induction false} OnlyAsset(d: Disk, a: Asset, ops: seq<Op>, w: World)
    requires forall i :: 0 <= i < |ops| ==> Touches(ops[i], a)
    ensures Exec(d, ops, w) == WithPartial(WithFinal(d, a, Final(Exec(d, ops, w), a)), a, Partial(Exec(d, ops, w), a))
    decreases |ops|
  {
    if ops != [] {
      OnlyAsset(Step(d, ops[0], w), a, ops[1..], w);
    }
  }

  // ---------- safety of every step ----------

  /** A release payload holds everything of an archive whose digest is its checksum entry. */
  predicate Verified(t: Tree, d: Disk, w: World) {
    t.entries == w.listing(t.source) && d.sums.Some? && w.expected(d.sums.value.written) == Some(w.digest(t.source))
  }

  predicate PartialOk(f: Option<File>) { f.Some? ==> f.value.written <= f.value.whole }

  /** What every step, and so every crash, leaves true of the cache directory. */
  predicate Safe(d: Disk, w: World) {
    && (d.tarball.Some? ==> !d.tarball.value.Truncated())
    && (d.sums.Some? ==> !d.sums.value.Truncated())
    && PartialOk(d.tarballPartial) && PartialOk(d.sumsPartial)
    && (d.payload.Some? ==> Verified(d.payload.value, d, w))
  }

  /** Safe before the first of the steps and after each of them. */
  predicate SafeAlong(d: Disk, ops: seq<Op>, w: World)
    decreases |ops|
  {
    Safe(d, w) && (ops != [] ==> SafeAlong(Step(d, ops[0], w), ops[1..], w))
  }

  lemma {:induction false} AlongPrefix(d: Disk, ops: seq<Op>, k: nat, w: World)
    requires SafeAlong(d, ops, w) && k <= |ops|
    ensures Safe(Exec(d, ops[..k], w), w)
    decreases |ops|
  {
    if k > 0 {
      AlongPrefix(Step(d, ops[0], w), ops[1..], k - 1, w);
      assert ops[..k][1..] == ops[1..][..k - 1];
    }
  }

  lemma {:induction false} AlongAppend(d: Disk, a: seq<Op>, b: seq<Op>, w: World)
    requires SafeAlong(d, a, w) && SafeAlong(Exec(d, a, w), b, w)
    ensures SafeAlong(d, a + b, w)
    decreases |a|
  {
    if a == [] {
      assert a + b == b;
    } else {
      AlongAppend(Step(d, a[0], w), a[1..], b, w);
      assert (a + b)[0] == a[0] && (a + b)[1..] == a[1..] + b;
    }
  }

  /** Steps that keep the cache safe whatever the state: all but the renames and dropping the checksums. */
  predicate Harmless(op: Op) { !op.RenamePartial? && !(op.RenameStaging? && op.place == Release) }

  lemma FileStep(d: Disk, op: Op, w: World)
    requires Safe(d, w) && (op.OpenPartial? || op.WriteChunk? || op.DropPartial? || op.DropTarball?)
    ensures Safe(Step(d, op, w), w)
  {}

  lemma TreeStep(d: Disk, op: Op, w: World)
    requires Safe(d, w) && Harmless(op) && !(op.OpenPartial? || op.WriteChunk? || op.DropPartial? || op.DropTarball?)
    ensures Safe(Step(d, op, w), w)
  {}

  lemma HarmlessStep(d: Disk, op: Op, w: World)
    requires Safe(d, w) && Harmless(op)
    ensures Safe(Step(d, op, w), w)
  {
    if op.OpenPartial? || op.WriteChunk? || op.DropPartial? || op.DropTarball? {
      FileStep(d, op, w);
    } else {
      TreeStep(d, op, w);
    }
  }

  lemma {:induction false} HarmlessAlong(d: Disk, ops: seq<Op>, w: World)
    requires Safe(d, w) && forall i :: 0 <= i < |ops| ==> Harmless(ops[i])
    ensures SafeAlong(d, ops, w)
    decreases |ops|
  {
    if ops != [] {
      HarmlessStep(d, ops[0], w);
      HarmlessAlong(Step(d, ops[0], w), ops[1..], w);
    }
  }

  /** Each attempt is safe: the rename comes only when the whole body is on disk. A checksum file is
      never replaced, because it is only downloaded when it is missing. */
  lemma AttemptSafe(d: Disk, a: Asset, answer: Answer, w: World)
    requires Safe(d, w) && Final(d, a) == None
    ensures SafeAlong(d, AttemptOps(a, answer), w)
  {
    match answer {
      case Served(body) =>
        var front := [OpenPartial(a, body)] + Repeat(WriteChunk(a), |body|);
        RepeatIs(WriteChunk(a), |body|);
        HarmlessAlong(d, front, w);
        var d1 := Step(d, OpenPartial(a, body), w);
        ExecAppend(d, [OpenPartial(a, body)], Repeat(WriteChunk(a), |body|), w);
        assert Exec(d, [OpenPartial(a, body)], w) == Exec(d1, [], w) == d1;
        Writes(d1, a, |body|, w);
        assert body[..|body|] == body;
        var d2 := Exec(d, front, w);
        assert Safe(d2, w) by { AlongPrefix(d, front, |front|, w); assert front[..|front|] == front; }
        var d3 := Step(d2, RenamePartial(a), w);
        assert Safe(d3, w);
        HarmlessAlong(d3, [DropPartial(a)], w);
        assert [RenamePartial(a), DropPartial(a)][1..] == [DropPartial(a)];
        AlongAppend(d, front, [RenamePartial(a), DropPartial(a)], w);
      case Broken(_, sent) =>
        RepeatIs(WriteChunk(a), sent);
        HarmlessAlong(d, AttemptOps(a, answer), w);
      case _ =>
    }
  }

  lemma {:induction false} DownloadSafe(d: Disk, a: Asset, replies: Replies, attempt: nat, w: World)
    requires 1 <= attempt <= DOWNLOAD_ATTEMPTS && Safe(d, w) && Final(d, a) == None
    ensures SafeAlong(d, DownloadPlan(a, replies, attempt).ops, w)
    decreases DOWNLOAD_ATTEMPTS - attempt
  {
    var answer := replies(attempt);
    AttemptSafe(d, a, answer, w);
    if !answer.Served? && !answer.Refused? && attempt < DOWNLOAD_ATTEMPTS {
      var ops := AttemptOps(a, answer);
      var d1 := Exec(d, ops, w);
      AlongPrefix(d, ops, |ops|, w);
      assert ops[..|ops|] == ops;
      FailedAttemptKeeps(d, a, answer, w);
      DownloadSafe(d1, a, replies, attempt + 1, w);
      AlongAppend(d, ops, DownloadPlan(a, replies, attempt + 1).ops, w);
    }
  }

  lemma {:induction false} KeepsFinal(d: Disk, a: Asset, ops: seq<Op>, w: World)
    requires forall i :: 0 <= i < |ops| ==> Touches(ops[i], a) && !ops[i].RenamePartial?
    ensures Final(Exec(d, ops, w), a) == Final(d, a)
    decreases |ops|
  {
    if ops != [] { KeepsFinal(Step(d, ops[0], w), a, ops[1..], w); }
  }

  lemma FailedAttemptKeeps(d: Disk, a: Asset, answer: Answer, w: World)
    requires !answer.Served?
    ensures Final(Exec(d, AttemptOps(a, answer), w), a) == Final(d, a)
  {
    AttemptTouches(a, answer);
    if answer.Broken? { RepeatIs(WriteChunk(a), answer.sent); }
    KeepsFinal(d, a, AttemptOps(a, answer), w);
  }

  lemma FetchSafe(d: Disk, a: Asset, replies: Replies, w: World)
    requires Safe(d, w)
    ensures SafeAlong(d, FetchPlan(d, a, replies).ops, w)
  {
    if Final(d, a) == None { DownloadSafe(d, a, replies, 1, w); }
  }

  // ---------- unpacking ----------

  lemma {:induction false} UnpacksTo(d: Disk, p: Place, n: nat, w: World)
    requires Staging(d, p).Some?
    requires var t := Staging(d, p).value; |t.entries| + n <= |w.listing(t.source)| && t.entries <= w.listing(t.source)
    ensures var t, e := Staging(d, p).value, Exec(d, Repeat(UnpackEntry(p), n), w);
            && e == WithStaging(d, p, Staging(e, p)) && Staging(e, p).Some? && Staging(e, p).value.source == t.source
            && Staging(e, p).value.entries == w.listing(t.source)[..|t.entries| + n]
    decreases n
  {
    var t := Staging(d, p).value;
    var list := w.listing(t.source);
    assert t.entries == list[..|t.entries|];
    if n > 0 {
      var d1 := Step(d, UnpackEntry(p), w);
      assert t.entries + [list[|t.entries|]] == list[..|t.entries| + 1];
      UnpacksTo(d1, p, n - 1, w);
      assert Repeat(UnpackEntry(p), n)[1..] == Repeat(UnpackEntry(p), n - 1);
    }
  }

  /** After unpacking, the staging directory holds every entry of the archive; nothing else changed. */
  lemma UnpackFills(d: Disk, p: Place, source: Content, w: World)
    ensures var e := Exec(d, UnpackOps(p, source, None, w), w);
            && e == WithStaging(d, p, Staging(e, p)) && Staging(e, p).Some?
            && Staging(e, p).value.source == source && Staging(e, p).value.entries == w.listing(source)
  {
    var n := |w.listing(source)|;
    var head := [ClearStaging(p), MakeStaging(p, source)];
    ExecAppend(d, head, Repeat(UnpackEntry(p), n), w);
    Exec2(d, ClearStaging(p), MakeStaging(p, source), w);
    UnpacksTo(Exec(d, head, w), p, n, w);
    assert w.listing(source)[..n] == w.listing(source);
  }

  lemma UnpackHarmless(p: Place, source: Content, failsAfter: Option<nat>, w: World)
    ensures forall i :: 0 <= i < |UnpackOps(p, source, failsAfter, w)| ==>
            Harmless(UnpackOps(p, source, failsAfter, w)[i])
  {
    var n := |w.listing(source)|;
    RepeatIs(UnpackEntry(p), if failsAfter.Some? && failsAfter.value < n then failsAfter.value else n);
  }

  /** The steps of the swap before its last one. */
  function BeforeRename(d: Disk, p: Place): seq<Op> {
    (if Payload(d, p).Some? && Payload(d, p).value.data.Some? then [DropStagedData(p), MoveData(p)] else []) +
        [DropPayload(p)]
  }

  /** They change nothing but the data of the staging directory and the payload. */
  lemma BeforeRenameKeeps(d: Disk, p: Place, w: World)
    requires Staging(d, p).Some?
    ensures var e := Exec(d, BeforeRename(d, p), w);
            Staging(e, p).Some? && Staging(e, p).value == Staging(d, p).value.(data := Staging(e, p).value.data) &&
                e.sums == d.sums
  {
    ExecOne(d, DropPayload(p), w);
    if Payload(d, p).Some? && Payload(d, p).value.data.Some? {
      ExecAppend(d, [DropStagedData(p), MoveData(p)], [DropPayload(p)], w);
      Exec2(d, DropStagedData(p), MoveData(p), w);
      ExecOne(Exec(d, [DropStagedData(p), MoveData(p)], w), DropPayload(p), w);
    } else {
      assert BeforeRename(d, p) == [DropPayload(p)];
    }
  }

  lemma RenameSafe(d: Disk, p: Place, w: World)
    requires Safe(d, w) && Staging(d, p).Some?
    requires p == Release ==> Verified(d.staging.value, d, w)
    ensures SafeAlong(d, [RenameStaging(p)], w)
  {
    assert Safe(Step(d, RenameStaging(p), w), w);
    assert [RenameStaging(p)][1..] == [];
    assert SafeAlong(Step(d, RenameStaging(p), w), [], w);
  }

  /** The swap keeps the cache safe at each of its steps, because what it renames is complete and verified. */
  lemma SwapSafe(d: Disk, p: Place, w: World)
    requires Safe(d, w) && Staging(d, p).Some?
    requires p == Release ==> Verified(d.staging.value, d, w)
    ensures SafeAlong(d, SwapOps(d, p), w)
  {
    var front := BeforeRename(d, p);
    HarmlessAlong(d, front, w);
    AlongPrefix(d, front, |front|, w);
    assert front[..|front|] == front;
    BeforeRenameKeeps(d, p, w);
    RenameSafe(Exec(d, front, w), p, w);
    AlongAppend(d, front, [RenameStaging(p)], w);
    assert SwapOps(d, p) == front + [RenameStaging(p)];
  }

  lemma ExtractSafe(d: Disk, p: Place, source: Content, failsAfter: Option<nat>, w: World)
    requires Safe(d, w)
    requires p == Release ==> d.sums.Some? && w.expected(d.sums.value.written) == Some(w.digest(source))
    ensures SafeAlong(d, ExtractPlan(d, p, source, failsAfter, w).ops, w)
  {
    var unpack := UnpackOps(p, source, failsAfter, w);
    UnpackHarmless(p, source, failsAfter, w);
    HarmlessAlong(d, unpack, w);
    if failsAfter == None {
      UnpackFills(d, p, source, w);
      var e := Exec(d, unpack, w);
      AlongPrefix(d, unpack, |unpack|, w);
      assert unpack[..|unpack|] == unpack;
      assert SwapOps(e, p) == SwapOps(d, p);
      SwapSafe(e, p, w);
      AlongAppend(d, unpack, SwapOps(d, p), w);
    }
  }

  lemma PrepareSafe(d: Disk, env: Env, w: World)
    requires Safe(d, w)
    ensures SafeAlong(d, PreparePlan(d, env, w).ops, w)
  {
    var tarball := FetchPlan(d, Tarball, env.tarballReplies);
    FetchSafe(d, Tarball, env.tarballReplies, w);
    if tarball.ok {
      var d1 := Exec(d, tarball.ops, w);
      AlongPrefix(d, tarball.ops, |tarball.ops|, w);
      assert tarball.ops[..|tarball.ops|] == tarball.ops;
      var sums := FetchPlan(d1, Sums, env.sumsReplies);
      FetchSafe(d1, Sums, env.sumsReplies, w);
      AlongAppend(d, tarball.ops, sums.ops, w);
      if sums.ok {
        var d2 := Exec(d1, sums.ops, w);
        AlongPrefix(d1, sums.ops, |sums.ops|, w);
        assert sums.ops[..|sums.ops|] == sums.ops;
        FetchedBoth(d, env, w);
        VerifySafe(d2, env, w);
        ExecAppend(d, tarball.ops, sums.ops, w);
        AlongAppend(d, tarball.ops + sums.ops, VerifyPlan(d2, env, w).ops, w);
      }
    }
  }

  lemma VerifySafe(d: Disk, env: Env, w: World)
    requires Safe(d, w) && d.tarball.Some? && d.sums.Some?
    ensures SafeAlong(d, VerifyPlan(d, env, w).ops, w)
  {
    var expected := w.expected(d.sums.value.written);
    if expected.Some? {
      if w.digest(d.tarball.value.written) != expected.value {
        HarmlessAlong(d, [DropTarball], w);
      } else if !env.provenanceRejected {
        ExtractSafe(d, Release, d.tarball.value.written, env.unpackFailsAfter, w);
      }
    }
  }

  lemma RunSafe(d: Disk, env: Env, w: World)
    requires Safe(d, w)
    ensures SafeAlong(d, RunPlan(d, env, w).ops, w)
  {
    match env.archive {
      case Some(archive) => ExtractSafe(d, Local, archive.content, env.unpackFailsAfter, w);
      case None => PrepareSafe(d, env, w);
    }
  }

  // ---------- every history ----------

  /** What happens to the cache: a run that ends on its own, a run that stops before its k-th step,
      or a started server writing its data. */
  datatype Event = Finished(env: Env) | Crashed(env: Env, k: nat) | ServerWrote(place: Place, data: string)

  function After(d: Disk, event: Event, w: World): Disk {
    match event
    case Finished(env) => AfterRun(d, env, w)
    case Crashed(env, k) =>
      var ops := RunPlan(d, env, w).ops;
      Exec(d, ops[..if k < |ops| then k else |ops|], w)
    case ServerWrote(p, data) =>
      if Payload(d, p).Some? then WithPayload(d, p, Some(Payload(d, p).value.(data := Some(data)))) else d
  }

  function AfterAll(events: seq<Event>, w: World): Disk {
    if events == [] then EMPTY else After(AfterAll(events[..|events| - 1], w), events[|events| - 1], w)
  }

  /** Crash safety: after any sequence of runs, retries, crashes and server writes, the release payload
      holds only the complete content of an archive whose digest is its checksum entry, and no final
      download name holds a truncated body. */
  lemma {:induction false} CrashSafety(events: seq<Event>, w: World)
    ensures Safe(AfterAll(events, w), w)
  {
    if events != [] {
      var d, event := AfterAll(events[..|events| - 1], w), events[|events| - 1];
      CrashSafety(events[..|events| - 1], w);
      if event.Finished? || event.Crashed? {
        var ops := RunPlan(d, event.env, w).ops;
        RunSafe(d, event.env, w);
        var k := if event.Crashed? && event.k < |ops| then event.k else |ops|;
        AlongPrefix(d, ops, k, w);
        assert ops[..|ops|] == ops;
      }
    }
  }

  // ---------- what a run promises ----------

  /** A server started from the release directory runs verified, complete content. */
  lemma StartedIsVerified(events: seq<Event>, env: Env, w: World)
    requires var d := AfterAll(events, w); env.archive == None && Starts(d, env, w)
    ensures var d := AfterRun(AfterAll(events, w), env, w);
            d.payload.Some? && Verified(d.payload.value, d, w) && "server.js" in w.listing(d.payload.value.source)
  {
    CrashSafety(events + [Finished(env)], w);
    assert (events + [Finished(env)])[..|events|] == events;
  }

  /** Steps that leave the release payload alone. */
  predicate SparesPayload(op: Op) {
    !(op.MoveData? && op.place == Release) && !(op.DropPayload? && op.place == Release) &&
        !(op.RenameStaging? && op.place == Release)
  }

  lemma {:induction false} SparesAlong(d: Disk, ops: seq<Op>, k: nat, w: World)
    requires k <= |ops| && forall i :: 0 <= i < |ops| ==> SparesPayload(ops[i])
    ensures Exec(d, ops[..k], w).payload == d.payload
    decreases |ops|
  {
    if k > 0 {
      SparesAlong(Step(d, ops[0], w), ops[1..], k - 1, w);
      assert ops[..k][1..] == ops[1..][..k - 1];
    }
  }

  lemma FetchSpares(d: Disk, a: Asset, replies: Replies)
    ensures forall i :: 0 <= i < |FetchPlan(d, a, replies).ops| ==> SparesPayload(FetchPlan(d, a, replies).ops[i])
  {
    if Final(d, a) == None { DownloadTouches(a, replies, 1); }
  }

  /** A run that does not get to the swap leaves the old payload in place at every moment: when a
      download fails for good, the checksum entry is missing or differs, the provenance is rejected,
      or unpacking fails. */
  lemma FailedRunKeepsPayload(d: Disk, env: Env, w: World, k: nat)
    requires !RunPlan(d, env, w).ok && k <= |RunPlan(d, env, w).ops|
    ensures Exec(d, RunPlan(d, env, w).ops[..k], w).payload == d.payload
  {
    var ops := RunPlan(d, env, w).ops;
    if env.archive.Some? {
      RepeatIs(UnpackEntry(Local), UnpackedBefore(env, env.archive.value.content, w));
    } else {
      PrepareSparesOrSwaps(d, env, w);
    }
    SparesAlong(d, ops, k, w);
  }

  function UnpackedBefore(env: Env, source: Content, w: World): nat {
    var n := |w.listing(source)|;
    if env.unpackFailsAfter.Some? && env.unpackFailsAfter.value < n then env.unpackFailsAfter.value else n
  }

  lemma PrepareSparesOrSwaps(d: Disk, env: Env, w: World)
    requires !PreparePlan(d, env, w).ok
    ensures forall i :: 0 <= i < |PreparePlan(d, env, w).ops| ==> SparesPayload(PreparePlan(d, env, w).ops[i])
  {
    var tarball := FetchPlan(d, Tarball, env.tarballReplies);
    FetchSpares(d, Tarball, env.tarballReplies);
    if tarball.ok {
      var d1 := Exec(d, tarball.ops, w);
      FetchSpares(d1, Sums, env.sumsReplies);
      if FetchPlan(d1, Sums, env.sumsReplies).ok {
        FetchedBoth(d, env, w);
        var d2 := Exec(d1, FetchPlan(d1, Sums, env.sumsReplies).ops, w);
        RepeatIs(UnpackEntry(Release), UnpackedBefore(env, d2.tarball.value.written, w));
      }
    }
  }

  /** The part of the disk that belongs to releases. */
  predicate SameRelease(a: Disk, b: Disk) {
    a == b.(localPayload := a.localPayload, localStaging := a.localStaging)
  }

  predicate LocalOp(op: Op) {
    match op
    case ClearStaging(p) => p == Local
    case MakeStaging(p, _) => p == Local
    case UnpackEntry(p) => p == Local
    case DropStagedData(p) => p == Local
    case MoveData(p) => p == Local
    case DropPayload(p) => p == Local
    case RenameStaging(p) => p == Local
    case _ => false
  }

  lemma {:induction false} LocalAlong(d: Disk, ops: seq<Op>, k: nat, w: World)
    requires k <= |ops| && forall i :: 0 <= i < |ops| ==> LocalOp(ops[i])
    ensures SameRelease(Exec(d, ops[..k], w), d)
    decreases |ops|
  {
    if k > 0 {
      LocalAlong(Step(d, ops[0], w), ops[1..], k - 1, w);
      assert ops[..k][1..] == ops[1..][..k - 1];
    }
  }

  /** A run of a local archive never touches the release's files, at no step. */
  lemma LocalLeavesRelease(d: Disk, env: Env, w: World, k: nat)
    requires env.archive.Some? && k <= |RunPlan(d, env, w).ops|
    ensures SameRelease(Exec(d, RunPlan(d, env, w).ops[..k], w), d)
  {
    RepeatIs(UnpackEntry(Local), UnpackedBefore(env, env.archive.value.content, w));
    LocalAlong(d, RunPlan(d, env, w).ops, k, w);
  }

  // ---------- the data directory ----------

  /** A successful unpack carries the data over. */
  lemma SwapCarriesData(d: Disk, p: Place, w: World)
    requires Staging(d, p).Some? && DataOf(Payload(d, p)).Some?
    ensures var ops := SwapOps(d, p);
            |ops| == 4 && DataOf(Payload(Exec(d, ops, w), p)) == DataOf(Payload(d, p))
    ensures forall k :: 0 <= k <= 4 ==>
              (DataOf(Payload(Exec(d, SwapOps(d, p)[..k], w), p)) == DataOf(Payload(d, p)) <==> k <= 1 || k == 4)
  {
    var ops := [DropStagedData(p), MoveData(p), DropPayload(p), RenameStaging(p)];
    assert SwapOps(d, p) == ops;
    assert ops[..0] == [] && ops[..1] == [ops[0]] && ops[..2] == [ops[0], ops[1]];
    assert ops[..3] == ops[..2] + [ops[2]] && ops[..4] == ops[..3] + [ops[3]] && ops[..4] == ops;
    assert Exec(d, ops[..1], w) == Exec(Step(d, ops[0], w), [], w) by { assert ops[..1][1..] == []; }
    Exec2(d, ops[0], ops[1], w);
    ExecAppend(d, ops[..2], [ops[2]], w);
    ExecOne(Exec(d, ops[..2], w), ops[2], w);
    ExecAppend(d, ops[..3], [ops[3]], w);
    ExecOne(Exec(d, ops[..3], w), ops[3], w);
  }

  lemma {:induction false} UnpackKeepsPayload(d: Disk, p: Place, ops: seq<Op>, k: nat, w: World)
    requires k <= |ops| && forall i :: 0 <= i < |ops| ==>
            ops[i] in {ClearStaging(p), UnpackEntry(p)} || (ops[i].MakeStaging? && ops[i].place == p)
    ensures Payload(Exec(d, ops[..k], w), p) == Payload(d, p)
    decreases |ops|
  {
    if k > 0 {
      UnpackKeepsPayload(Step(d, ops[0], w), p, ops[1..], k - 1, w);
      assert ops[..k][1..] == ops[1..][..k - 1];
    }
  }

  /** When a crash loses the data: an unpacking run that stops after k of its n steps still has the
      payload's data in the payload exactly when it stopped before the data was moved into the
      staging directory, which is step n - 2, or after the last rename. In between the only copy is
      in the staging directory, which the next unpacking clears first. */
  lemma DataSurvivesIff(d: Disk, p: Place, source: Content, w: World, k: nat)
    requires DataOf(Payload(d, p)).Some?
    requires k <= |ExtractPlan(d, p, source, None, w).ops|
    ensures var ops := ExtractPlan(d, p, source, None, w).ops;
            DataOf(Payload(Exec(d, ops[..k], w), p)) == DataOf(Payload(d, p)) <==> k <= |ops| - 3 || k == |ops|
  {
    var unpack := UnpackOps(p, source, None, w);
    var n := |unpack|;
    var e := Exec(d, unpack, w);
    UnpackFills(d, p, source, w);
    assert SwapOps(e, p) == SwapOps(d, p);
    SwapCarriesData(e, p, w);
    if k <= n {
      RepeatIs(UnpackEntry(p), |w.listing(source)|);
      UnpackKeepsPayload(d, p, unpack, k, w);
      assert (unpack + SwapOps(d, p))[..k] == unpack[..k];
    } else {
      assert (unpack + SwapOps(d, p))[..k] == unpack + SwapOps(d, p)[..k - n];
      ExecAppend(d, unpack, SwapOps(d, p)[..k - n], w);
    }
  }

  /** The data an archive ships: an empty directory, or none. */
  function Shipped(source: Content, w: World): Option<string> { if "data" in w.listing(source) then Some("") else None }

  lemma SliceCons<T>(s: seq<T>, i: nat, j: nat)
    requires i < j <= |s|
    ensures s[i..j] == [s[i]] + s[i + 1..j]
  {}

  lemma {:induction false} UnpackedData(d: Disk, p: Place, n: nat, w: World)
    requires Staging(d, p).Some?
    requires var t := Staging(d, p).value; |t.entries| + n <= |w.listing(t.source)|
    ensures var t, e := Staging(d, p).value, Exec(d, Repeat(UnpackEntry(p), n), w);
            DataOf(Staging(e, p)) == if "data" in w.listing(t.source)[|t.entries|..|t.entries| + n] then
                Some("") else t.data
    decreases n
  {
    var t := Staging(d, p).value;
    var list, i := w.listing(t.source), |t.entries|;
    if n == 0 {
      assert list[i..i] == [];
    } else {
      UnpackedData(Step(d, UnpackEntry(p), w), p, n - 1, w);
      assert Repeat(UnpackEntry(p), n)[1..] == Repeat(UnpackEntry(p), n - 1);
      SliceCons(list, i, i + n);
    }
  }

  lemma UnpackShips(d: Disk, p: Place, source: Content, w: World)
    ensures DataOf(Staging(Exec(d, UnpackOps(p, source, None, w), w), p)) == Shipped(source, w)
  {
    var n := |w.listing(source)|;
    var head := [ClearStaging(p), MakeStaging(p, source)];
    ExecAppend(d, head, Repeat(UnpackEntry(p), n), w);
    Exec2(d, ClearStaging(p), MakeStaging(p, source), w);
    UnpackedData(Exec(d, head, w), p, n, w);
    assert w.listing(source)[0..n] == w.listing(source);
  }

  /** An unpacking run that completes leaves the data the payload had before, else what the archive ships. */
  lemma ExtractData(d: Disk, p: Place, source: Content, w: World)
    ensures var e := Exec(d, ExtractPlan(d, p, source, None, w).ops, w);
            && DataOf(Payload(e, p)) == (if DataOf(Payload(d, p)).Some? then
                DataOf(Payload(d, p)) else Shipped(source, w))
            && Payload(e, p).Some? && Staging(e, p) == None
  {
    var unpack := UnpackOps(p, source, None, w);
    var e := Exec(d, unpack, w);
    UnpackFills(d, p, source, w);
    UnpackShips(d, p, source, w);
    ExecAppend(d, unpack, SwapOps(d, p), w);
    if DataOf(Payload(d, p)).Some? {
      ExecAppend(e, [DropStagedData(p), MoveData(p)], [DropPayload(p), RenameStaging(p)], w);
      Exec2(e, DropStagedData(p), MoveData(p), w);
      Exec2(Exec(e, [DropStagedData(p), MoveData(p)], w), DropPayload(p), RenameStaging(p), w);
    } else {
      assert SwapOps(d, p) == [DropPayload(p), RenameStaging(p)];
      Exec2(e, DropPayload(p), RenameStaging(p), w);
    }
  }

  /** In the window, after the data was moved, the payload is still there until it is dropped. */
  lemma WindowPayload(d: Disk, p: Place, source: Content, w: World, k: nat)
    requires DataOf(Payload(d, p)).Some? && k <= |ExtractPlan(d, p, source, None, w).ops|
    ensures var ops := ExtractPlan(d, p, source, None, w).ops;
            var stopped := Exec(d, ops[..k], w);
            && (Payload(stopped, p) == None <==> k == |ops| - 1)
            && (k == |ops| - 2 ==>
                  Payload(stopped, p).Some? && Payload(stopped, p).value == Payload(d, p).value.(data := None))
  {
    var unpack := UnpackOps(p, source, None, w);
    var n := |unpack|;
    var e := Exec(d, unpack, w);
    UnpackFills(d, p, source, w);
    var ops := [DropStagedData(p), MoveData(p), DropPayload(p), RenameStaging(p)];
    assert SwapOps(d, p) == ops;
    if k <= n {
      RepeatIs(UnpackEntry(p), |w.listing(source)|);
      UnpackKeepsPayload(d, p, unpack, k, w);
      assert (unpack + ops)[..k] == unpack[..k];
    } else {
      assert (unpack + ops)[..k] == unpack + ops[..k - n];
      ExecAppend(d, unpack, ops[..k - n], w);
      SwapPayloads(e, p, w, k - n);
    }
  }

  lemma SwapPayloads(d: Disk, p: Place, w: World, k: nat)
    requires Staging(d, p).Some? && DataOf(Payload(d, p)).Some? && 1 <= k <= 4
    ensures var ops := [DropStagedData(p), MoveData(p), DropPayload(p), RenameStaging(p)];
            var stopped := Exec(d, ops[..k], w);
            && (Payload(stopped, p) == None <==> k == 3)
            && (k == 2 ==> Payload(stopped, p).Some? && Payload(stopped, p).value == Payload(d, p).value.(data := None))
  {
    var ops := [DropStagedData(p), MoveData(p), DropPayload(p), RenameStaging(p)];
    var d1 := Step(d, ops[0], w);
    var d2 := Step(d1, ops[1], w);
    var d3 := Step(d2, ops[2], w);
    if k == 1 {
      assert ops[..1] == [ops[0]];
      ExecOne(d, ops[0], w);
    } else {
      Exec2(d, ops[0], ops[1], w);
      assert ops[..2] == [ops[0], ops[1]];
      if k == 3 {
        ExecAppend(d, ops[..2], [ops[2]], w);
        ExecOne(d2, ops[2], w);
        assert ops[..3] == ops[..2] + [ops[2]];
      } else if k == 4 {
        ExecAppend(d, ops[..2], [ops[2], ops[3]], w);
        Exec2(d2, ops[2], ops[3], w);
        assert ops[..4] == ops[..2] + [ops[2], ops[3]];
      }
    }
  }

  /** The loss, over two unpackings. The first stops after k of its n steps, and the second completes:
      the payload's data is still there afterwards if and only if the first stopped before it moved the
      data or after its last rename, or the archive ships the same. Else the second unpacking has cleared
      the only copy. A server that runs in between and writes its own data keeps that, if there still was
      a payload to start from. */
  lemma NextUnpackLosesIff(d: Disk, p: Place, source: Content, next: Content, w: World, k: nat, wrote: Option<string>)
    requires DataOf(Payload(d, p)).Some? && k <= |ExtractPlan(d, p, source, None, w).ops|
    ensures var ops := ExtractPlan(d, p, source, None, w).ops;
            var stopped := Exec(d, ops[..k], w);
            var between := if wrote.Some? then After(stopped, ServerWrote(p, wrote.value), w) else stopped;
            var after := Exec(between, ExtractPlan(between, p, next, None, w).ops, w);
            && Staging(after, p) == None
            && (wrote == None ==>
                  (DataOf(Payload(after, p)) == DataOf(Payload(d, p)) <==>
                   k <= |ops| - 3 || k == |ops| || Shipped(next, w) == DataOf(Payload(d, p))))
            && (wrote.Some? ==> DataOf(Payload(after, p)) == if k == |ops| - 1 then Shipped(next, w) else wrote)
  {
    var ops := ExtractPlan(d, p, source, None, w).ops;
    var stopped := Exec(d, ops[..k], w);
    var between := if wrote.Some? then After(stopped, ServerWrote(p, wrote.value), w) else stopped;
    DataSurvivesIff(d, p, source, w, k);
    WindowPayload(d, p, source, w, k);
    if |ops| - 3 < k < |ops| { WindowHasNoData(d, p, source, w, k); }
    ExtractData(between, p, next, w);
  }

  lemma WindowHasNoData(d: Disk, p: Place, source: Content, w: World, k: nat)
    requires DataOf(Payload(d, p)).Some?
    requires var ops := ExtractPlan(d, p, source, None, w).ops; |ops| >= 3 && |ops| - 3 < k < |ops|
    ensures DataOf(Payload(Exec(d, ExtractPlan(d, p, source, None, w).ops[..k], w), p)) == None
  {
    WindowPayload(d, p, source, w, k);
  }

  /** A release run between the two that finds the cached payload performs no step: in the window it
      starts the server, which finds no data. */
  lemma CachedRunFindsNoData(d: Disk, source: Content, w: World, env: Env)
    requires DataOf(d.payload).Some? && HasServer(d.payload) && env.archive == None && !env.verifyCache
    ensures var ops := ExtractPlan(d, Release, source, None, w).ops;
            var stopped := Exec(d, ops[..|ops| - 2], w);
            Starts(stopped, env, w) && AfterRun(stopped, env, w) == stopped && DataOf(stopped.payload) == None
  {
    var ops := ExtractPlan(d, Release, source, None, w).ops;
    WindowPayload(d, Release, source, w, |ops| - 2);
    var stopped := Exec(d, ops[..|ops| - 2], w);
    assert Exec(stopped, [], w) == stopped;
  }

  // ---------- recovery ----------

  /** The network serves the release: the archive and a checksum file that lists its digest, each
      within the three attempts and without a definitive refusal before. */
  predicate ServesWithin(replies: Replies, body: Content, attempt: nat)
    requires 1 <= attempt <= DOWNLOAD_ATTEMPTS
    decreases DOWNLOAD_ATTEMPTS - attempt
  {
    replies(attempt) == Served(body)
    || (!replies(attempt).Served? && !replies(attempt).Refused? && attempt < DOWNLOAD_ATTEMPTS &&
        ServesWithin(replies, body, attempt + 1))
  }

  /** Such a download leaves the body under the final name, no partial file, and nothing else changed. */
  lemma {:induction false} DownloadGets(d: Disk, a: Asset, replies: Replies, body: Content, attempt: nat, w: World)
    requires 1 <= attempt <= DOWNLOAD_ATTEMPTS && ServesWithin(replies, body, attempt)
    ensures var plan := DownloadPlan(a, replies, attempt);
            plan.ok && Exec(d, plan.ops, w) == WithPartial(WithFinal(d, a, Some(File(body, body))), a, None)
    decreases DOWNLOAD_ATTEMPTS - attempt
  {
    var answer := replies(attempt);
    if answer.Served? {
      ServedAttempt(d, a, body, w);
    } else {
      var d1 := Exec(d, AttemptOps(a, answer), w);
      ExecAppend(d, AttemptOps(a, answer), DownloadPlan(a, replies, attempt + 1).ops, w);
      DownloadGets(d1, a, replies, body, attempt + 1, w);
      AttemptTouches(a, answer);
      OnlyAsset(d, a, AttemptOps(a, answer), w);
    }
  }

  /** Circumstances in which a release run can succeed: the network serves the good archive and a
      checksum file that lists its digest, no other archive shares that digest, it holds a server, and
      neither the provenance nor the unpacker stands in the way. Nothing is said of the cache. */
  ghost predicate Favourable(env: Env, w: World, good: Content, sums: Content) {
    && env.archive == None && !env.provenanceRejected && env.unpackFailsAfter == None
    && ServesWithin(env.tarballReplies, good, 1) && ServesWithin(env.sumsReplies, sums, 1)
    && w.expected(sums) == Some(w.digest(good))
    && (forall other :: w.digest(other) == w.digest(good) ==> other == good)
    && "server.js" in w.listing(good)
  }

  predicate UsesCache(d: Disk, env: Env) { !env.verifyCache && HasServer(d.payload) }

  /** The cached checksum file lists the good archive's digest, or there is none. */
  predicate ListsGood(d: Disk, w: World, good: Content) {
    d.sums == None || w.expected(d.sums.value.written) == Some(w.digest(good))
  }

  /** The cache holds another archive, with a server, that its own checksum file lists. */
  predicate OwnPair(d: Disk, w: World) {
    && d.sums.Some? && d.tarball.Some? && w.expected(d.sums.value.written) == Some(w.digest(d.tarball.value.written))
    && "server.js" in w.listing(d.tarball.value.written)
  }

  /** What a favourable run does when it does not use the cached payload: after its downloads the
      archive and the checksums are those of the cache, or else the ones served. */
  lemma FetchBothGets(d: Disk, env: Env, w: World, good: Content, sums: Content)
    requires Favourable(env, w, good, sums)
    ensures var t := FetchPlan(d, Tarball, env.tarballReplies);
            var d1 := Exec(d, t.ops, w);
            var s := FetchPlan(d1, Sums, env.sumsReplies);
            t.ok && s.ok && Exec(d1, s.ops, w) == Fetched(d, good, sums)
  {
    if d.tarball == None {
      DownloadGets(d, Tarball, env.tarballReplies, good, 1, w);
    }
    var d1 := Exec(d, FetchPlan(d, Tarball, env.tarballReplies).ops, w);
    if d.sums == None {
      DownloadGets(d1, Sums, env.sumsReplies, sums, 1, w);
    }
  }

  function Fetched(d: Disk, good: Content, sums: Content): Disk {
    var d1 := if d.tarball.Some? then d else d.(tarball := Some(File(good, good)), tarballPartial := None);
    if d.sums.Some? then d1 else d1.(sums := Some(File(sums, sums)), sumsPartial := None)
  }

  /** The rest of such a run works on what was fetched. */
  lemma RunAfterFetch(d: Disk, env: Env, w: World, good: Content, sums: Content)
    requires Favourable(env, w, good, sums) && !UsesCache(d, env)
    ensures var f := Fetched(d, good, sums);
            && f.tarball.Some? && f.sums.Some? && f.payload == d.payload
            && RunPlan(d, env, w).ok == VerifyPlan(f, env, w).ok
            && AfterRun(d, env, w) == Exec(f, VerifyPlan(f, env, w).ops, w)
  {
    FetchBothGets(d, env, w, good, sums);
    var t := FetchPlan(d, Tarball, env.tarballReplies);
    var d1 := Exec(d, t.ops, w);
    var s := FetchPlan(d1, Sums, env.sumsReplies);
    var f := Fetched(d, good, sums);
    ExecAppend(d, t.ops, s.ops, w);
    ExecAppend(d, t.ops + s.ops, VerifyPlan(f, env, w).ops, w);
  }

  /** Extracting ends with the archive's content as payload; the files stay. */
  lemma ExtractFills(d: Disk, p: Place, source: Content, w: World)
    ensures var e := Exec(d, ExtractPlan(d, p, source, None, w).ops, w);
            && Payload(e, p).Some? && Payload(e, p).value.source == source &&
                Payload(e, p).value.entries == w.listing(source)
            && e.tarball == d.tarball && e.sums == d.sums
  {
    var unpack := UnpackOps(p, source, None, w);
    UnpackFills(d, p, source, w);
    var e := Exec(d, unpack, w);
    ExecAppend(d, unpack, SwapOps(d, p), w);
    var front := if DataOf(Payload(d, p)).Some? then [DropStagedData(p), MoveData(p)] else [];
    ExecAppend(e, front, [DropPayload(p), RenameStaging(p)], w);
    if front != [] { Exec2(e, DropStagedData(p), MoveData(p), w); }
    Exec2(Exec(e, front, w), DropPayload(p), RenameStaging(p), w);
  }

  /** The archive is the one the checksums list, and it holds a server. */
  predicate Usable(f: Disk, w: World) {
    && f.tarball.Some? && f.sums.Some? && w.expected(f.sums.value.written) == Some(w.digest(f.tarball.value.written))
    && "server.js" in w.listing(f.tarball.value.written)
  }

  /** One favourable run: it starts the server exactly when it uses the cached payload or what it has
      fetched is usable. */
  lemma StartsIff(d: Disk, env: Env, w: World, good: Content, sums: Content)
    requires Favourable(env, w, good, sums)
    ensures Starts(d, env, w) <==> UsesCache(d, env) || Usable(Fetched(d, good, sums), w)
  {
    if UsesCache(d, env) {
      assert Exec(d, [], w) == d;
    } else {
      RunAfterFetch(d, env, w, good, sums);
      var f := Fetched(d, good, sums);
      ExtractFills(f, Release, f.tarball.value.written, w);
    }
  }

  /** A favourable run that does not start leaves the checksums, no usable payload, and no archive that
      could be used with them. */
  lemma FailedRunLeaves(d: Disk, env: Env, w: World, good: Content, sums: Content)
    requires Favourable(env, w, good, sums) && !Starts(d, env, w)
    ensures var e, f := AfterRun(d, env, w), Fetched(d, good, sums);
            !UsesCache(e, env) && e.sums == f.sums && e.tarball in {None, f.tarball}
            && (w.expected(f.sums.value.written).Some? &&
                w.expected(f.sums.value.written) != Some(w.digest(f.tarball.value.written)) ==>
                  e.tarball == None)
  {
    StartsIff(d, env, w, good, sums);
    RunAfterFetch(d, env, w, good, sums);
    var f := Fetched(d, good, sums);
    ExtractFills(f, Release, f.tarball.value.written, w);
    ExecOne(f, DropTarball, w);
    assert Exec(f, [], w) == f;
  }

  /** The same circumstances, run after run. */
  function AfterRuns(d: Disk, env: Env, n: nat, w: World): Disk {
    if n == 0 then d else AfterRun(AfterRuns(d, env, n - 1, w), env, w)
  }

  /** Some favourable run can start the server. */
  predicate Recovers(d: Disk, env: Env, w: World, good: Content) {
    UsesCache(d, env) || ListsGood(d, w, good) || OwnPair(d, w)
  }

  lemma StartingRecovers(d: Disk, env: Env, w: World, good: Content, sums: Content)
    requires Favourable(env, w, good, sums) && Starts(d, env, w)
    ensures Recovers(d, env, w, good)
  {
    StartsIff(d, env, w, good, sums);
  }

  /** A cache that does not recover stays so: the checksum file is never replaced. */
  lemma StuckStays(d: Disk, env: Env, w: World, good: Content, sums: Content)
    requires Favourable(env, w, good, sums) && !Recovers(d, env, w, good)
    ensures !Recovers(AfterRun(d, env, w), env, w, good) && AfterRun(d, env, w).sums == d.sums
  {
    if Starts(d, env, w) { StartingRecovers(d, env, w, good, sums); assert false; }
    FailedRunLeaves(d, env, w, good, sums);
  }

  lemma {:induction false} StuckForever(d: Disk, env: Env, w: World, good: Content, sums: Content, n: nat)
    requires Favourable(env, w, good, sums) && !Recovers(d, env, w, good)
    ensures !Recovers(AfterRuns(d, env, n, w), env, w, good) && AfterRuns(d, env, n, w).sums == d.sums
  {
    if n > 0 {
      StuckForever(d, env, w, good, sums, n - 1);
      StuckStays(AfterRuns(d, env, n - 1, w), env, w, good, sums);
    }
  }

  /** A cache that recovers: the second run starts the server if the first does not. */
  lemma SecondStarts(d: Disk, env: Env, w: World, good: Content, sums: Content)
    requires Favourable(env, w, good, sums) && Recovers(d, env, w, good) && !Starts(d, env, w)
    ensures Starts(AfterRun(d, env, w), env, w)
  {
    StartsIff(d, env, w, good, sums);
    FailedRunLeaves(d, env, w, good, sums);
    StartsIff(AfterRun(d, env, w), env, w, good, sums);
  }

  /** Recovery, whatever crashes and corrupt downloads the cache went through: under favourable
      circumstances some run starts the server if and only if the cached payload is used, or there is no
      cached checksum file or it lists the good digest, or it lists the cached archive itself; and then
      the second run at the latest does. In every other case no number of runs helps, because a checksum
      file that is there is never replaced. */
  lemma RecoversIff(d: Disk, env: Env, w: World, good: Content, sums: Content)
    requires Favourable(env, w, good, sums)
    ensures (exists n: nat :: Starts(AfterRuns(d, env, n, w), env, w)) <==> Recovers(d, env, w, good)
    ensures (exists n: nat :: Starts(AfterRuns(d, env, n, w), env, w)) <==>
            Starts(d, env, w) || Starts(AfterRun(d, env, w), env, w)
  {
    OneRun(d, env, w);
    if Recovers(d, env, w, good) {
      if Starts(d, env, w) {
        assert Starts(AfterRuns(d, env, 0, w), env, w);
      } else {
        SecondStarts(d, env, w, good, sums);
        assert Starts(AfterRuns(d, env, 1, w), env, w);
      }
    } else {
      forall n: nat ensures !Starts(AfterRuns(d, env, n, w), env, w) {
        NeverStarts(d, env, w, good, sums, n);
      }
      assert !Starts(AfterRuns(d, env, 0, w), env, w) && !Starts(AfterRuns(d, env, 1, w), env, w);
    }
  }

  lemma OneRun(d: Disk, env: Env, w: World)
    ensures AfterRuns(d, env, 0, w) == d && AfterRuns(d, env, 1, w) == AfterRun(d, env, w)
  {
    assert AfterRuns(d, env, 0, w) == d;
  }

  lemma NeverStarts(d: Disk, env: Env, w: World, good: Content, sums: Content, n: nat)
    requires Favourable(env, w, good, sums) && !Recovers(d, env, w, good)
    ensures !Starts(AfterRuns(d, env, n, w), env, w)
  {
    StuckForever(d, env, w, good, sums, n);
    StartsIff(AfterRuns(d, env, n, w), env, w, good, sums);
  }

  /** Recovery in two runs: what was cached is no obstacle, except a checksum file without the good digest. */
  lemma RecoversInTwoRuns(d: Disk, env: Env, w: World, good: Content, sums: Content)
    requires Favourable(env, w, good, sums) && ListsGood(d, w, good)
    ensures Starts(d, env, w) || Starts(AfterRun(d, env, w), env, w)
  {
    RecoversIff(d, env, w, good, sums);
  }
}
