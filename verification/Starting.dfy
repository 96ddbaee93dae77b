/** Exactly when a run of the launcher starts the server, for every disk and every outcome outside it. */
module Starting {
  import opened Text
  import opened Launcher

  /** What three attempts at a download bring: the first body served whole, unless a definitive refusal
      comes first. */
  function Received(replies: Replies): Option<Content> {
    if replies(1).Served? then Some(replies(1).body)
    else if replies(1).Refused? then None
    else if replies(2).Served? then Some(replies(2).body)
    else if replies(2).Refused? then None
    else if replies(3).Served? then Some(replies(3).body)
    else None
  }

  lemma ReceivedIs(replies: Replies)
    ensures DownloadPlan(Tarball, replies, 1).ok == DownloadPlan(Sums, replies, 1).ok == Received(replies).Some?
    ensures Received(replies).Some? ==> ServesWithin(replies, Received(replies).value, 1)
  {
    ReceivedPlan(Tarball, replies);
    ReceivedPlan(Sums, replies);
    if Received(replies).Some? {
      var body := Received(replies).value;
      assert ServesWithin(replies, body, 3) <==> replies(3) == Served(body);
      assert ServesWithin(replies, body, 2) <==>
        replies(2) == Served(body) ||
        (!replies(2).Served? && !replies(2).Refused? && ServesWithin(replies, body, 3));
    }
  }

  lemma ReceivedPlan(a: Asset, replies: Replies)
    ensures DownloadPlan(a, replies, 1).ok <==> Received(replies).Some?
  {
    assert DownloadPlan(a, replies, 3).ok <==> replies(3).Served?;
    assert DownloadPlan(a, replies, 2).ok <==>
      replies(2).Served? || (!replies(2).Refused? && DownloadPlan(a, replies, 3).ok);
  }

  /** The asset a run works with: what is cached under its name, or else what its download brings. */
  function Held(d: Disk, a: Asset, replies: Replies): Option<Content> {
    if Final(d, a).Some? then Some(Final(d, a).value.written) else Received(replies)
  }

  lemma FetchHolds(d: Disk, a: Asset, replies: Replies, w: World)
    ensures var plan := FetchPlan(d, a, replies);
            var e := Exec(d, plan.ops, w);
            && (plan.ok <==> Held(d, a, replies).Some?)
            && (plan.ok ==>
                  && Final(e, a).Some? && Final(e, a).value.written == Held(d, a, replies).value
                  && e == WithPartial(WithFinal(d, a, Final(e, a)), a, Partial(e, a)))
  {
    if Final(d, a) == None {
      ReceivedIs(replies);
      if Received(replies).Some? { DownloadGets(d, a, replies, Received(replies).value, 1, w); }
    } else {
      assert Exec(d, [], w) == d;
    }
  }

  /** A release run has an archive and checksums that list it, and nothing stands in the way. */
  predicate Deliverable(d: Disk, env: Env, w: World) {
    var archive, sums := Held(d, Tarball, env.tarballReplies), Held(d, Sums, env.sumsReplies);
    && archive.Some? && sums.Some? && w.expected(sums.value) == Some(w.digest(archive.value))
    && !env.provenanceRejected && env.unpackFailsAfter == None && "server.js" in w.listing(archive.value)
  }

  /** What both downloads leave: the files held, and the rest as it was. */
  lemma BothFetched(d: Disk, env: Env, w: World)
    ensures var t := FetchPlan(d, Tarball, env.tarballReplies);
            var d1 := Exec(d, t.ops, w);
            var s := FetchPlan(d1, Sums, env.sumsReplies);
            var d2 := Exec(d1, s.ops, w);
            && (t.ok <==> Held(d, Tarball, env.tarballReplies).Some?)
            && (t.ok ==> (s.ok <==> Held(d, Sums, env.sumsReplies).Some?))
            && (t.ok && s.ok ==>
                  && d2.tarball.Some? && d2.tarball.value.written == Held(d, Tarball, env.tarballReplies).value
                  && d2.sums.Some? && d2.sums.value.written == Held(d, Sums, env.sumsReplies).value
                  && d2.payload == d.payload)
  {
    FetchHolds(d, Tarball, env.tarballReplies, w);
    var d1 := Exec(d, FetchPlan(d, Tarball, env.tarballReplies).ops, w);
    FetchHolds(d1, Sums, env.sumsReplies, w);
  }

  /** With both files there, the run ends as the checks and the unpacker say. */
  lemma VerifyEnds(f: Disk, env: Env, w: World)
    requires f.tarball.Some? && f.sums.Some?
    ensures var plan := VerifyPlan(f, env, w);
            var archive := f.tarball.value.written;
            && (plan.ok <==>
                  w.expected(f.sums.value.written) == Some(w.digest(archive)) &&
                  !env.provenanceRejected && env.unpackFailsAfter == None)
            && (plan.ok ==>
                  var e := Exec(f, plan.ops, w);
                  e.payload.Some? && e.payload.value.source == archive && e.payload.value.entries == w.listing(archive))
  {
    ExtractFills(f, Release, f.tarball.value.written, w);
  }

  /** A release run starts the server exactly when it uses the cached payload, or else the archive it holds
      is the one its checksums list, its provenance is accepted, it unpacks, and it has a server; the
      payload it starts is then that archive, complete. */
  lemma ReleaseStartsIff(d: Disk, env: Env, w: World)
    requires env.archive == None
    ensures Starts(d, env, w) <==> UsesCache(d, env) || Deliverable(d, env, w)
    ensures Starts(d, env, w) && !UsesCache(d, env) ==>
              var started := AfterRun(d, env, w).payload;
              var archive := Held(d, Tarball, env.tarballReplies).value;
              started.Some? && started.value.source == archive && started.value.entries == w.listing(archive)
    ensures UsesCache(d, env) ==> AfterRun(d, env, w) == d
  {
    if UsesCache(d, env) {
      assert Exec(d, [], w) == d;
    } else {
      var t := FetchPlan(d, Tarball, env.tarballReplies);
      var d1 := Exec(d, t.ops, w);
      var s := FetchPlan(d1, Sums, env.sumsReplies);
      BothFetched(d, env, w);
      if t.ok && s.ok {
        var f := Exec(d1, s.ops, w);
        VerifyEnds(f, env, w);
        ExecAppend(d, t.ops, s.ops, w);
        ExecAppend(d, t.ops + s.ops, VerifyPlan(f, env, w).ops, w);
      }
    }
  }

  /** No download in progress. */
  predicate NoPartial(d: Disk) { d.tarballPartial == None && d.sumsPartial == None }

  predicate LeavesPartial(op: Op) { !op.OpenPartial? && !op.WriteChunk? && !op.RenamePartial? && !op.DropPartial? }

  lemma {:induction false} PartialStays(d: Disk, ops: seq<Op>, w: World)
    requires forall i :: 0 <= i < |ops| ==> LeavesPartial(ops[i])
    ensures Exec(d, ops, w).tarballPartial == d.tarballPartial && Exec(d, ops, w).sumsPartial == d.sumsPartial
    decreases |ops|
  {
    if ops != [] { PartialStays(Step(d, ops[0], w), ops[1..], w); }
  }

  lemma LastDrops(d: Disk, ops: seq<Op>, a: Asset, w: World)
    ensures Partial(Exec(d, ops + [DropPartial(a)], w), a) == None
  {
    ExecAppend(d, ops, [DropPartial(a)], w);
    ExecOne(Exec(d, ops, w), DropPartial(a), w);
  }

  /** An attempt that ends, however it ends, removes its partial file. */
  lemma AttemptLeavesNoPartial(d: Disk, a: Asset, answer: Answer, w: World)
    requires NoPartial(d)
    ensures NoPartial(Exec(d, AttemptOps(a, answer), w))
  {
    var ops := AttemptOps(a, answer);
    AttemptTouches(a, answer);
    OnlyAsset(d, a, ops, w);
    if ops != [] {
      Unsnoc(ops);
      LastDrops(d, ops[..|ops| - 1], a, w);
    }
  }

  lemma {:induction false} DownloadLeavesNoPartial(d: Disk, a: Asset, replies: Replies, attempt: nat, w: World)
    requires 1 <= attempt <= DOWNLOAD_ATTEMPTS && NoPartial(d)
    ensures NoPartial(Exec(d, DownloadPlan(a, replies, attempt).ops, w))
    decreases DOWNLOAD_ATTEMPTS - attempt
  {
    var answer := replies(attempt);
    AttemptLeavesNoPartial(d, a, answer, w);
    if !answer.Served? && !answer.Refused? && attempt < DOWNLOAD_ATTEMPTS {
      ExecAppend(d, AttemptOps(a, answer), DownloadPlan(a, replies, attempt + 1).ops, w);
      DownloadLeavesNoPartial(Exec(d, AttemptOps(a, answer), w), a, replies, attempt + 1, w);
    }
  }

  lemma FetchLeavesNoPartial(d: Disk, a: Asset, replies: Replies, w: World)
    requires NoPartial(d)
    ensures NoPartial(Exec(d, FetchPlan(d, a, replies).ops, w))
  {
    if Final(d, a) == None { DownloadLeavesNoPartial(d, a, replies, 1, w); }
  }

  lemma ExtractLeavesPartial(d: Disk, p: Place, source: Content, failsAfter: Option<nat>, w: World)
    ensures forall i :: 0 <= i < |ExtractPlan(d, p, source, failsAfter, w).ops| ==>
              LeavesPartial(ExtractPlan(d, p, source, failsAfter, w).ops[i])
  {
    var n := |w.listing(source)|;
    RepeatIs(UnpackEntry(p), if failsAfter.Some? && failsAfter.value < n then failsAfter.value else n);
  }

  /** A run that ends on its own, also one that fails, leaves no partial download behind. */
  lemma RunLeavesNoPartial(d: Disk, env: Env, w: World)
    requires NoPartial(d)
    ensures NoPartial(AfterRun(d, env, w))
  {
    match env.archive {
      case Some(archive) =>
        ExtractLeavesPartial(d, Local, archive.content, env.unpackFailsAfter, w);
        PartialStays(d, RunPlan(d, env, w).ops, w);
      case None =>
        if !UsesCache(d, env) { PrepareLeavesNoPartial(d, env, w); }
    }
  }

  lemma PrepareLeavesNoPartial(d: Disk, env: Env, w: World)
    requires NoPartial(d)
    ensures NoPartial(Exec(d, PreparePlan(d, env, w).ops, w))
  {
    var t := FetchPlan(d, Tarball, env.tarballReplies);
    var d1 := Exec(d, t.ops, w);
    var s := FetchPlan(d1, Sums, env.sumsReplies);
    FetchLeavesNoPartial(d, Tarball, env.tarballReplies, w);
    if t.ok {
      FetchLeavesNoPartial(d1, Sums, env.sumsReplies, w);
      ExecAppend(d, t.ops, s.ops, w);
      if s.ok {
        var f := Exec(d1, s.ops, w);
        BothFetched(d, env, w);
        ExecAppend(d, t.ops + s.ops, VerifyPlan(f, env, w).ops, w);
        ExtractLeavesPartial(f, Release, f.tarball.value.written, env.unpackFailsAfter, w);
        PartialStays(f, VerifyPlan(f, env, w).ops, w);
      }
    }
  }

  /** A rejected provenance: unless the cached payload is used, the server is not started, and the payload
      is left alone at every step. */
  lemma RejectedNeverStarts(d: Disk, env: Env, w: World, k: nat)
    requires env.archive == None && env.provenanceRejected && !UsesCache(d, env)
    requires k <= |RunPlan(d, env, w).ops|
    ensures !Starts(d, env, w) && Exec(d, RunPlan(d, env, w).ops[..k], w).payload == d.payload
  {
    BothFetched(d, env, w);
    FailedRunKeepsPayload(d, env, w, k);
  }

  /** The digest of a local archive is asked for and is another one. */
  predicate PinRefused(archive: LocalArchive, w: World) {
    archive.pinned.Some? && archive.pinned.value != w.digest(archive.content)
  }

  /** A run of a local archive starts the server exactly when the archive is there, its digest is the
      pinned one if one is pinned, it unpacks, and it has a server; the payload it starts is then that
      archive, complete. */
  lemma LocalStartsIff(d: Disk, env: Env, w: World)
    requires env.archive.Some?
    ensures var archive := env.archive.value;
            && (Starts(d, env, w) <==>
                archive.present && !PinRefused(archive, w) && env.unpackFailsAfter == None &&
                "server.js" in w.listing(archive.content))
            && (Starts(d, env, w) ==>
                var started := AfterRun(d, env, w).localPayload;
                && started.Some? && started.value.source == archive.content
                && started.value.entries == w.listing(archive.content))
  {
    var archive := env.archive.value;
    if archive.present && !PinRefused(archive, w) { ExtractFills(d, Local, archive.content, w); }
  }

  /** A local archive that is missing or whose pinned digest is another one changes nothing, at no step. */
  lemma RefusedChangesNothing(d: Disk, env: Env, w: World, k: nat)
    requires env.archive.Some? && (!env.archive.value.present || PinRefused(env.archive.value, w))
    requires k <= |RunPlan(d, env, w).ops|
    ensures !Starts(d, env, w) && Exec(d, RunPlan(d, env, w).ops[..k], w) == d
  {
    assert RunPlan(d, env, w).ops[..k] == [];
  }

  lemma {:induction false} LocalPayloadStays(d: Disk, ops: seq<Op>, k: nat, w: World)
    requires k <= |ops|
    requires forall i :: 0 <= i < |ops| ==> ops[i].ClearStaging? || ops[i].MakeStaging? || ops[i].UnpackEntry?
    ensures Exec(d, ops[..k], w).localPayload == d.localPayload
    decreases |ops|
  {
    if k > 0 {
      LocalPayloadStays(Step(d, ops[0], w), ops[1..], k - 1, w);
      assert ops[..k][1..] == ops[1..][..k - 1];
    }
  }

  /** A run of a local archive that fails leaves the local payload in place at every step. */
  lemma FailedLocalKeepsPayload(d: Disk, env: Env, w: World, k: nat)
    requires env.archive.Some? && !RunPlan(d, env, w).ok && k <= |RunPlan(d, env, w).ops|
    ensures Exec(d, RunPlan(d, env, w).ops[..k], w).localPayload == d.localPayload
  {
    RepeatIs(UnpackEntry(Local), UnpackedBefore(env, env.archive.value.content, w));
    LocalPayloadStays(d, RunPlan(d, env, w).ops, k, w);
  }
}
