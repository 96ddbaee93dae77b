/** The launcher as it changes the cache directory: each method performs the steps of its plan. */
module LauncherRun {
  import opened Text
  import opened Launcher

  lemma {:induction false} RepeatSnoc(op: Op, n: nat)
    ensures Repeat(op, n + 1) == Repeat(op, n) + [op]
  {
    if n == 0 {
      assert Repeat(op, 0) == [] && Repeat(op, 1) == [op] + Repeat(op, 0);
    } else {
      RepeatSnoc(op, n - 1);
      Regroup([op], Repeat(op, n - 1), [op]);
    }
  }

  lemma ExecSnoc(d: Disk, ops: seq<Op>, op: Op, w: World)
    ensures Exec(d, ops + [op], w) == Step(Exec(d, ops, w), op, w)
  {
    ExecAppend(d, ops, [op], w);
    ExecOne(Exec(d, ops, w), op, w);
  }

  /** The plan is what was done and what the attempts from this one on will do. */
  ghost predicate GoesOn(plan: Plan, done: seq<Op>, a: Asset, replies: Replies, attempt: nat)
    requires 1 <= attempt <= DOWNLOAD_ATTEMPTS
  {
    var rest := DownloadPlan(a, replies, attempt);
    plan.ops == done + rest.ops && plan.ok == rest.ok
  }

  /** One turn of the retry loop: it ends with this attempt, or goes on with the next one. */
  lemma DownloadTurn(a: Asset, replies: Replies, attempt: nat, plan: Plan, done: seq<Op>)
    requires 1 <= attempt <= DOWNLOAD_ATTEMPTS && GoesOn(plan, done, a, replies, attempt)
    ensures var answer := replies(attempt);
            var upTo := done + AttemptOps(a, answer);
            if answer.Served? || answer.Refused? || attempt >= DOWNLOAD_ATTEMPTS then
              plan.ok == answer.Served? && plan.ops == upTo
            else
              GoesOn(plan, upTo, a, replies, attempt + 1)
  {
    if attempt < DOWNLOAD_ATTEMPTS {
      Regroup(done, AttemptOps(a, replies(attempt)), DownloadPlan(a, replies, attempt + 1).ops);
    }
  }

  class Cache {
    var disk: Disk
    const world: World
    /** Every step performed so far; a crash leaves the disk as a prefix of them made it. */
    ghost var log: seq<Op>

    constructor (world: World)
      ensures this.world == world && disk == EMPTY && log == []
    {
      this.world, disk, log := world, EMPTY, [];
    }

    /** From the old state to this one, exactly these steps were performed. */
    twostate predicate Did(ops: seq<Op>)
      reads this
    {
      log == old(log) + ops && disk == Exec(old(disk), ops, world)
    }

    /** The only method that assigns to the disk. */
    method Perform(op: Op)
      modifies this
      ensures disk == Step(old(disk), op, world) && log == old(log) + [op]
    {
      disk := Step(disk, op, world);
      log := log + [op];
    }

    /** Steps add up. */
    lemma Chain(d: Disk, l: seq<Op>, ops: seq<Op>, op: Op, m: Disk, k: seq<Op>)
      requires m == Exec(d, ops, world) && k == l + ops
      ensures Step(m, op, world) == Exec(d, ops + [op], world) && k + [op] == l + (ops + [op])
    {
      ExecSnoc(d, ops, op, world);
      Regroup(l, ops, [op]);
    }

    lemma ChainAll(d: Disk, l: seq<Op>, a: seq<Op>, b: seq<Op>, m: Disk, k: seq<Op>)
      requires m == Exec(d, a, world) && k == l + a
      ensures Exec(m, b, world) == Exec(d, a + b, world) && k + b == l + (a + b)
    {
      ExecAppend(d, a, b, world);
      Regroup(l, a, b);
    }

    /** `n` times the same step. */
    method PerformTimes(op: Op, n: nat)
      modifies this
      ensures Did(Repeat(op, n))
    {
      var i := 0;
      assert old(log) + [] == old(log);
      while i < n
        invariant i <= n
        invariant log == old(log) + Repeat(op, i) && disk == Exec(old(disk), Repeat(op, i), world)
      {
        Chain(old(disk), old(log), Repeat(op, i), op, disk, log);
        RepeatSnoc(op, i);
        Perform(op);
        i := i + 1;
      }
    }

    /** One attempt; the partial file is removed whether or not the body arrived. */
    method DownloadOnce(a: Asset, answer: Answer) returns (ok: bool)
      modifies this
      ensures ok == answer.Served? && Did(AttemptOps(a, answer))
    {
      if answer.NoAnswer? || answer.Refused? {
        assert old(log) + [] == old(log);
        return false;
      }
      ghost var ops := [OpenPartial(a, answer.body)];
      ExecOne(disk, OpenPartial(a, answer.body), world);
      Perform(OpenPartial(a, answer.body));
      var n := if answer.Served? then |answer.body| else answer.sent;
      ChainAll(old(disk), old(log), ops, Repeat(WriteChunk(a), n), disk, log);
      PerformTimes(WriteChunk(a), n);
      ops := ops + Repeat(WriteChunk(a), n);
      if answer.Served? {
        Chain(old(disk), old(log), ops, RenamePartial(a), disk, log);
        Perform(RenamePartial(a));
        ghost var renamed := ops + [RenamePartial(a)];
        Chain(old(disk), old(log), renamed, DropPartial(a), disk, log);
        Perform(DropPartial(a));
        Regroup(ops, [RenamePartial(a)], [DropPartial(a)]);
        assert [RenamePartial(a)] + [DropPartial(a)] == [RenamePartial(a), DropPartial(a)];
      } else {
        Chain(old(disk), old(log), ops, DropPartial(a), disk, log);
        Perform(DropPartial(a));
      }
      ok := answer.Served?;
    }

    /** The retry loop. */
    method Download(a: Asset, replies: Replies) returns (ok: bool)
      modifies this
      ensures var plan := DownloadPlan(a, replies, 1); ok == plan.ok && Did(plan.ops)
    {
      ghost var d, l, plan := disk, log, DownloadPlan(a, replies, 1);
      var attempt := 1;
      ghost var done: seq<Op> := [];
      assert l + done == l && done + plan.ops == plan.ops && Exec(d, done, world) == d;
      while true
        invariant 1 <= attempt <= DOWNLOAD_ATTEMPTS
        invariant log == l + done && disk == Exec(d, done, world)
        invariant GoesOn(plan, done, a, replies, attempt)
        decreases DOWNLOAD_ATTEMPTS - attempt
      {
        var answer := replies(attempt);
        DownloadTurn(a, replies, attempt, plan, done);
        ChainAll(d, l, done, AttemptOps(a, answer), disk, log);
        done := done + AttemptOps(a, answer);
        ok := DownloadOnce(a, answer);
        if ok || answer.Refused? || attempt >= DOWNLOAD_ATTEMPTS { return; }
        attempt := attempt + 1;
      }
    }

    /** `preservePayloadData`: the old payload's data directory replaces the unpacked one. */
    method PreservePayloadData(p: Place)
      modifies this
      ensures Did(if DataOf(Payload(old(disk), p)).Some? then [DropStagedData(p), MoveData(p)] else [])
    {
      assert old(log) + [] == old(log);
      if Payload(disk, p).Some? && Payload(disk, p).value.data.Some? {
        Exec2(disk, DropStagedData(p), MoveData(p), world);
        Perform(DropStagedData(p));
        Perform(MoveData(p));
        Regroup(old(log), [DropStagedData(p)], [MoveData(p)]);
        assert [DropStagedData(p)] + [MoveData(p)] == [DropStagedData(p), MoveData(p)];
      }
    }

    /** Unpacks into the staging directory, then swaps it in. */
    method Extract(p: Place, source: Content, failsAfter: Option<nat>) returns (ok: bool)
      modifies this
      ensures var plan := ExtractPlan(old(disk), p, source, failsAfter, world); ok == plan.ok && Did(plan.ops)
    {
      Exec2(disk, ClearStaging(p), MakeStaging(p, source), world);
      Perform(ClearStaging(p));
      Perform(MakeStaging(p, source));
      ghost var head := [ClearStaging(p), MakeStaging(p, source)];
      Regroup(old(log), [ClearStaging(p)], [MakeStaging(p, source)]);
      assert [ClearStaging(p)] + [MakeStaging(p, source)] == head;
      var all := |world.listing(source)|;
      var n := if failsAfter.Some? && failsAfter.value < all then failsAfter.value else all;
      ChainAll(old(disk), old(log), head, Repeat(UnpackEntry(p), n), disk, log);
      PerformTimes(UnpackEntry(p), n);
      if failsAfter.Some? { return false; }
      ghost var unpack := UnpackOps(p, source, None, world);
      UnpackFills(old(disk), p, source, world);
      assert Payload(disk, p) == Payload(old(disk), p);
      ghost var keep := if DataOf(Payload(disk, p)).Some? then [DropStagedData(p), MoveData(p)] else [];
      ChainAll(old(disk), old(log), unpack, keep, disk, log);
      PreservePayloadData(p);
      Chain(old(disk), old(log), unpack + keep, DropPayload(p), disk, log);
      Perform(DropPayload(p));
      Chain(old(disk), old(log), unpack + keep + [DropPayload(p)], RenameStaging(p), disk, log);
      Perform(RenameStaging(p));
      Regroup(unpack + keep, [DropPayload(p)], [RenameStaging(p)]);
      assert [DropPayload(p)] + [RenameStaging(p)] == [DropPayload(p), RenameStaging(p)];
      Regroup(unpack, keep, [DropPayload(p), RenameStaging(p)]);
      ok := true;
    }

    method Fetch(a: Asset, replies: Replies) returns (ok: bool)
      modifies this
      ensures var plan := FetchPlan(old(disk), a, replies); ok == plan.ok && Did(plan.ops)
    {
      assert old(log) + [] == old(log);
      if Final(disk, a).Some? { return true; }
      ok := Download(a, replies);
    }

    /** Downloads what is missing, checks the digest and the provenance, unpacks. */
    method PreparePayload(env: Env) returns (ok: bool)
      modifies this
      ensures var plan := PreparePlan(old(disk), env, world); ok == plan.ok && Did(plan.ops)
    {
      ok := Fetch(Tarball, env.tarballReplies);
      if !ok { return; }
      ghost var d1 := disk;
      ghost var t := FetchPlan(old(disk), Tarball, env.tarballReplies).ops;
      ghost var s := FetchPlan(d1, Sums, env.sumsReplies).ops;
      ChainAll(old(disk), old(log), t, s, disk, log);
      ok := Fetch(Sums, env.sumsReplies);
      if !ok { return; }
      FetchedBoth(old(disk), env, world);
      ghost var verify := VerifyPlan(disk, env, world);
      ChainAll(old(disk), old(log), t + s, verify.ops, disk, log);
      ok := Verify(env);
    }

    /** The part of `preparePayload` after the downloads. */
    method Verify(env: Env) returns (ok: bool)
      requires disk.tarball.Some? && disk.sums.Some?
      modifies this
      ensures var plan := VerifyPlan(old(disk), env, world); ok == plan.ok && Did(plan.ops)
    {
      assert old(log) + [] == old(log);
      var expected := world.expected(disk.sums.value.written);
      if expected == None { return false; }
      if world.digest(disk.tarball.value.written) != expected.value {
        ExecOne(disk, DropTarball, world);
        Perform(DropTarball);
        return false;
      }
      if env.provenanceRejected { return false; }
      ok := Extract(Release, disk.tarball.value.written, env.unpackFailsAfter);
    }

    /** `main`: it starts the server exactly when the run's plan says so, and the disk is what the
        plan's steps make of it. */
    method Run(env: Env) returns (started: bool)
      modifies this
      ensures started == Starts(old(disk), env, world)
      ensures Did(RunPlan(old(disk), env, world).ops) && disk == AfterRun(old(disk), env, world)
    {
      assert old(log) + [] == old(log);
      var ok;
      if env.archive.Some? {
        var archive := env.archive.value;
        if !archive.present { return false; }
        if archive.pinned.Some? && world.digest(archive.content) != archive.pinned.value { return false; }
        ok := Extract(Local, archive.content, env.unpackFailsAfter);
      } else if !env.verifyCache && HasServer(disk.payload) {
        ok := true;
      } else {
        ok := PreparePayload(env);
      }
      if !ok { return false; }
      started := HasServer(Payload(disk, PlaceOf(env)));
    }
  }
}
