/** The transaction as the kit's `build` performs it, with its `try` and `finally`: whatever
    other builders do in between and whatever goes wrong, it takes the steps of the machine. */
module PublishBuild {
  import opened Text
  import opened PublishSteps
  import opened PublishRuns
  import opened PublishWorlds

  // What an operation that ends like this makes of the builder, one function per operation; each
  // lemma says that the machine does the same to it and to the disk.

  /** The builder once `mkstemp` has given it a file, or failed to. */
  function WithTempFile(b: Builder, id: Option<nat>): Builder {
    if id.None? then Abort(b)
    else if b.phase.MakeZipTemp? then b.(zipTemp := id, phase := MakeReceiptTemp)
    else b.(receiptTemp := id, phase := WriteZip)
  }

  lemma LedTemp(sha: Bytes -> string, w: World, from: Origin, d: Disk, t: nat, b: Builder)
    requires Led(sha, w, from, d, t, b)
    requires b.phase.MakeZipTemp? || (b.phase.MakeReceiptTemp? && b.zipTemp.Some?)
    ensures var found, made := w.others(t)(d), w.events(t).Proceed?;
      Led(sha, w, from, if made then WithTemp(found) else found, t + 1, WithTempFile(b, if made then Some(found.next) else None))
  {
    LedMore(sha, w, from, d, t, b);
  }

  predicate Writes(sha: Bytes -> string, b: Builder, inode: nat, content: Content) {
    && b.zipTemp.Some? && b.receiptTemp.Some?
    && (|| (b.phase.WriteZip? && b.zipTemp == Some(inode) && content == Archive(b.job.archive))
        || (b.phase.WriteReceipt? && b.receiptTemp == Some(inode) && content == Receipt(sha(b.job.archive))))
  }

  function AfterWrite(b: Builder, ok: bool): Builder {
    if ok then b.(phase := if b.phase.WriteZip? then VerifyZip else CheckAbsent) else Abort(b)
  }

  lemma LedWrite(sha: Bytes -> string, w: World, from: Origin, d: Disk, t: nat, b: Builder, inode: nat, content: Content)
    requires Led(sha, w, from, d, t, b) && Writes(sha, b, inode, content)
    ensures var ok := w.events(t).Proceed?;
      Led(sha, w, from, Put(w.others(t)(d), inode, if ok then content else Scratch), t + 1, AfterWrite(b, ok))
  {
    LedMore(sha, w, from, d, t, b);
  }

  predicate Compares(sha: Bytes -> string, b: Builder, place: Place, content: Content) {
    && b.zipTemp.Some? && b.receiptTemp.Some?
    && (|| (b.phase.VerifyZip? && place == Temp(b.zipTemp.value) && content == Archive(b.job.archive))
        || (b.phase.VerifyOutZip? && place == Dest(b.job.zip) && content == Archive(b.job.archive))
        || (b.phase.VerifyOutReceipt? && place == Dest(b.job.receipt) && content == Receipt(sha(b.job.archive))))
  }

  function AfterCompare(b: Builder, ok: bool): Builder {
    if ok then b.(phase := if b.phase.VerifyZip? then WriteReceipt else if b.phase.VerifyOutZip? then VerifyOutReceipt else CleanZipTemp)
    else Abort(b)
  }

  lemma LedCompare(sha: Bytes -> string, w: World, from: Origin, d: Disk, t: nat, b: Builder, place: Place, content: Content)
    requires Led(sha, w, from, d, t, b) && Compares(sha, b, place, content)
    ensures var found := w.others(t)(d);
      Led(sha, w, from, found, t + 1, AfterCompare(b, w.events(t).Proceed? && Shows(found, place, content)))
  {
    LedMore(sha, w, from, d, t, b);
  }

  function AfterLook(b: Builder, ok: bool): Builder { if ok then b.(phase := LinkZip) else Abort(b) }

  lemma LedLook(sha: Bytes -> string, w: World, from: Origin, d: Disk, t: nat, b: Builder)
    requires Led(sha, w, from, d, t, b) && b.phase.CheckAbsent? && b.zipTemp.Some? && b.receiptTemp.Some?
    ensures var found := w.others(t)(d);
      var free := Dest(b.job.zip) !in found.names && Dest(b.job.receipt) !in found.names;
      Led(sha, w, from, found, t + 1, AfterLook(b, w.events(t).Proceed? && free))
  {
    LedMore(sha, w, from, d, t, b);
  }

  predicate Links(b: Builder, source: Place, to: Place) {
    && b.zipTemp.Some? && b.receiptTemp.Some?
    && (|| (b.phase in {LinkZip, DropZipTemp, UndoZip} && source == Temp(b.zipTemp.value) && to == Dest(b.job.zip))
        || (b.phase in {LinkReceipt, DropReceiptTemp, UndoReceipt} && source == Temp(b.receiptTemp.value) && to == Dest(b.job.receipt)))
  }

  function AfterLink(b: Builder, ok: bool): Builder {
    if ok then b.(phase := if b.phase.LinkZip? then DropZipTemp else DropReceiptTemp) else Abort(b)
  }

  lemma LedLink(sha: Bytes -> string, w: World, from: Origin, d: Disk, t: nat, b: Builder, source: Place, to: Place)
    requires Led(sha, w, from, d, t, b) && Links(b, source, to) && b.phase in {LinkZip, LinkReceipt}
    ensures var found := w.others(t)(d); var ok := w.events(t).Proceed? && CanLink(found, source, to);
      Led(sha, w, from, if ok then Link(found, source, to) else found, t + 1, AfterLink(b, ok))
  {
    LedMore(sha, w, from, d, t, b);
  }

  function AfterDrop(b: Builder, e: Event): Builder {
    match e
    case Proceed => b.(phase := if b.phase.DropZipTemp? then FlagZip else FlagReceipt)
    case Fault => b.(phase := if b.phase.DropZipTemp? then UndoZip else UndoReceipt)
    case Interrupt => AbortWith(b, if b.phase.DropZipTemp? then InterruptedBeforeZipFlag else InterruptedBeforeReceiptFlag)
  }

  lemma LedDrop(sha: Bytes -> string, w: World, from: Origin, d: Disk, t: nat, b: Builder, source: Place, to: Place)
    requires Led(sha, w, from, d, t, b) && Links(b, source, to) && b.phase in {DropZipTemp, DropReceiptTemp}
    ensures var found, e := w.others(t)(d), w.events(t);
      Led(sha, w, from, if e.Proceed? then Unlink(found, source) else found, t + 1, AfterDrop(b, e))
  {
    LedMore(sha, w, from, d, t, b);
  }

  function AfterUndo(b: Builder, e: Event): Builder {
    match e
    case Proceed => Abort(b)
    case Fault => AbortWith(b, if b.phase.UndoZip? then ZipUnlinkFailed else ReceiptUnlinkFailed)
    case Interrupt => AbortWith(b, if b.phase.UndoZip? then InterruptedBeforeZipFlag else InterruptedBeforeReceiptFlag)
  }

  lemma LedUndo(sha: Bytes -> string, w: World, from: Origin, d: Disk, t: nat, b: Builder, source: Place, to: Place)
    requires Led(sha, w, from, d, t, b) && Links(b, source, to) && b.phase in {UndoZip, UndoReceipt}
    ensures var found, e := w.others(t)(d), w.events(t);
      Led(sha, w, from, if e.Proceed? then Unlink(found, to) else found, t + 1, AfterUndo(b, e))
  {
    LedMore(sha, w, from, d, t, b);
  }

  function AfterFlag(b: Builder, ok: bool): Builder {
    if b.phase.FlagZip? then
      if ok then b.(publishedZip := true, phase := LinkReceipt) else AbortWith(b, InterruptedBeforeZipFlag)
    else
      if ok then b.(publishedReceipt := true, phase := VerifyOutZip) else AbortWith(b, InterruptedBeforeReceiptFlag)
  }

  lemma LedFlag(sha: Bytes -> string, w: World, from: Origin, d: Disk, t: nat, b: Builder)
    requires Led(sha, w, from, d, t, b) && b.phase in {FlagZip, FlagReceipt} && b.zipTemp.Some? && b.receiptTemp.Some?
    ensures Led(sha, w, from, w.others(t)(d), t + 1, AfterFlag(b, !w.events(t).Interrupt?))
  {
    LedMore(sha, w, from, d, t, b);
  }

  /** A removal of the `finally` block: whether it is called for, what it removes, and which
      one is next. */
  predicate Cleans(b: Builder, needed: bool, p: Place, m: Mishap, next: Phase) {
    || (b.phase.CleanZipTemp? && needed == b.zipTemp.Some? && p == Temp(b.zipTemp.GetOr(0))
        && m == TempUnlinkFailed && next == CleanReceiptTemp)
    || (b.phase.CleanReceiptTemp? && needed == b.receiptTemp.Some? && p == Temp(b.receiptTemp.GetOr(0))
        && m == TempUnlinkFailed && next == CleanReceipt)
    || (b.phase.CleanReceipt? && needed == (Undoes(b) && b.publishedReceipt) && p == Dest(b.job.receipt)
        && m == ReceiptUnlinkFailed && next == CleanZip)
    || (b.phase.CleanZip? && needed == (Undoes(b) && b.publishedZip) && p == Dest(b.job.zip)
        && m == ZipUnlinkFailed && next == Done)
  }

  lemma LedClean(sha: Bytes -> string, w: World, from: Origin, d: Disk, t: nat, b: Builder,
                 needed: bool, p: Place, m: Mishap, next: Phase)
    requires Led(sha, w, from, d, t, b) && Cleans(b, needed, p, m, next)
    ensures var (d', b') := Clean(w.others(t)(d), b, needed, p, w.events(t), m, next); Led(sha, w, from, d', t + 1, b')
  {
    LedMore(sha, w, from, d, t, b);
  }

  /** A disk shared with others. */
  class SharedDisk {
    var disk: Disk
    var clock: nat
    const world: World

    constructor (disk: Disk, world: World)
      ensures this.disk == disk && clock == 0 && this.world == world
    {
      this.disk, this.clock, this.world := disk, 0, world;
    }

    /** The disk as the next operation finds it, and how the operation ends. */
    method Begin() returns (e: Event)
      modifies this
      ensures clock == old(clock) + 1 && e == world.events(old(clock)) && disk == world.others(old(clock))(old(disk))
    {
      disk, e, clock := world.others(clock)(disk), world.events(clock), clock + 1;
    }

    /** `_temporary_file`. */
    method TemporaryFile(sha: Bytes -> string, ghost from: Origin, ghost b: Builder) returns (id: Option<nat>, ghost b': Builder)
      requires b.phase.MakeZipTemp? || (b.phase.MakeReceiptTemp? && b.zipTemp.Some?)
      requires Led(sha, world, from, disk, clock, b)
      modifies this
      ensures Led(sha, world, from, disk, clock, b') && b' == WithTempFile(b, id)
    {
      LedTemp(sha, world, from, disk, clock, b);
      var e := Begin();
      id := if e.Proceed? then Some(disk.next) else None;
      b' := WithTempFile(b, id);
      if e.Proceed? { disk := WithTemp(disk); }
    }

    /** Writes a staged file; a failed write leaves scratch behind. */
    method WriteStaged(sha: Bytes -> string, ghost from: Origin, ghost b: Builder, inode: nat, content: Content)
        returns (ok: bool, ghost b': Builder)
      requires Led(sha, world, from, disk, clock, b) && Writes(sha, b, inode, content)
      modifies this
      ensures Led(sha, world, from, disk, clock, b') && b' == AfterWrite(b, ok)
    {
      LedWrite(sha, world, from, disk, clock, b, inode, content);
      var e := Begin();
      ok := e.Proceed?;
      b' := AfterWrite(b, ok);
      disk := Put(disk, inode, if ok then content else Scratch);
    }

    /** Reads a file and compares it: the staged archive, or a published output. */
    method Compare(sha: Bytes -> string, ghost from: Origin, ghost b: Builder, place: Place, content: Content)
        returns (ok: bool, ghost b': Builder)
      requires Led(sha, world, from, disk, clock, b) && Compares(sha, b, place, content)
      modifies this
      ensures Led(sha, world, from, disk, clock, b') && b' == AfterCompare(b, ok)
    {
      LedCompare(sha, world, from, disk, clock, b, place, content);
      var e := Begin();
      ok := e.Proceed? && Shows(disk, place, content);
      b' := AfterCompare(b, ok);
    }

    /** `output_zip.exists() or receipt_path.exists()`. */
    method BothAbsent(sha: Bytes -> string, ghost from: Origin, job: Job, ghost b: Builder) returns (ok: bool, ghost b': Builder)
      requires Led(sha, world, from, disk, clock, b)
      requires b.phase.CheckAbsent? && b.zipTemp.Some? && b.receiptTemp.Some? && b.job == job
      modifies this
      ensures Led(sha, world, from, disk, clock, b') && b' == AfterLook(b, ok)
    {
      LedLook(sha, world, from, disk, clock, b);
      var e := Begin();
      ok := e.Proceed? && Dest(job.zip) !in disk.names && Dest(job.receipt) !in disk.names;
      b' := AfterLook(b, ok);
    }

    /** `os.link`, which never replaces. */
    method LinkNew(sha: Bytes -> string, ghost from: Origin, ghost b: Builder, source: Place, to: Place)
        returns (ok: bool, ghost b': Builder)
      requires Led(sha, world, from, disk, clock, b) && Links(b, source, to) && b.phase in {LinkZip, LinkReceipt}
      modifies this
      ensures Led(sha, world, from, disk, clock, b') && b' == AfterLink(b, ok)
    {
      LedLink(sha, world, from, disk, clock, b, source, to);
      var e := Begin();
      ok := e.Proceed? && CanLink(disk, source, to);
      b' := AfterLink(b, ok);
      if ok { disk := Link(disk, source, to); }
    }

    /** `staging.unlink()` after the link. */
    method DropStaging(sha: Bytes -> string, ghost from: Origin, ghost b: Builder, source: Place, ghost to: Place)
        returns (e: Event, ghost b': Builder)
      requires Led(sha, world, from, disk, clock, b) && Links(b, source, to) && b.phase in {DropZipTemp, DropReceiptTemp}
      modifies this
      ensures Led(sha, world, from, disk, clock, b') && b' == AfterDrop(b, e)
    {
      LedDrop(sha, world, from, disk, clock, b, source, to);
      e := Begin();
      b' := AfterDrop(b, e);
      if e.Proceed? { disk := Unlink(disk, source); }
    }

    /** `destination.unlink(missing_ok=True)` when the staging file could not be removed. */
    method UndoLink(sha: Bytes -> string, ghost from: Origin, ghost b: Builder, ghost source: Place, to: Place)
        returns (ghost b': Builder)
      requires Led(sha, world, from, disk, clock, b) && Links(b, source, to) && b.phase in {UndoZip, UndoReceipt}
      modifies this
      ensures Led(sha, world, from, disk, clock, b') && b' == Abort(b).(mishaps := b'.mishaps)
    {
      LedUndo(sha, world, from, disk, clock, b, source, to);
      var e := Begin();
      b' := AfterUndo(b, e);
      if e.Proceed? { disk := Unlink(disk, to); }
    }

    /** `published_zip = True`, or the receipt's flag: only an interrupt can come before it. */
    method RaiseFlag(sha: Bytes -> string, ghost from: Origin, ghost b: Builder) returns (ok: bool, ghost b': Builder)
      requires Led(sha, world, from, disk, clock, b)
      requires b.phase in {FlagZip, FlagReceipt} && b.zipTemp.Some? && b.receiptTemp.Some?
      modifies this
      ensures Led(sha, world, from, disk, clock, b') && b' == AfterFlag(b, ok)
    {
      LedFlag(sha, world, from, disk, clock, b);
      var e := Begin();
      ok := !e.Interrupt?;
      b' := AfterFlag(b, ok);
    }

    /** One `unlink(missing_ok=True)` of the `finally` block: its errors are swallowed, but an
        interrupt ends the block. */
    method CleanUp(sha: Bytes -> string, ghost from: Origin, ghost b: Builder, needed: bool, p: Place,
                   ghost m: Mishap, ghost next: Phase)
        returns (ok: bool, ghost b': Builder)
      requires Led(sha, world, from, disk, clock, b) && Cleans(b, needed, p, m, next)
      modifies this
      ensures Led(sha, world, from, disk, clock, b')
      ensures b' == if ok then b.(mishaps := b'.mishaps, phase := next) else CutShort(b)
    {
      LedClean(sha, world, from, disk, clock, b, needed, p, m, next);
      var e := Begin();
      b' := Clean(disk, b, needed, p, e, m, next).1;
      ok := !e.Interrupt?;
      if needed && e.Proceed? { disk := Unlink(disk, p); }
    }

    /** `_publish_no_replace`, and the flag that is set when it returns. */
    method PublishNoReplace(sha: Bytes -> string, ghost from: Origin, ghost b: Builder, staging: Place, destination: Place)
        returns (ok: bool, ghost b': Builder)
      requires Led(sha, world, from, disk, clock, b)
      requires Links(b, staging, destination) && b.phase in {LinkZip, LinkReceipt}
      modifies this
      ensures Led(sha, world, from, disk, clock, b')
      ensures ok && b.phase.LinkZip? ==> b' == b.(publishedZip := true, phase := LinkReceipt)
      ensures ok && b.phase.LinkReceipt? ==> b' == b.(publishedReceipt := true, phase := VerifyOutZip)
      ensures !ok ==> b' == Abort(b).(mishaps := b'.mishaps)
    {
      ghost var b1;
      ok, b1 := LinkNew(sha, from, b, staging, destination);
      b' := b1;
      if !ok { return; }
      var e, b2 := DropStaging(sha, from, b1, staging, destination);
      b' := b2;
      if e.Fault? {
        ghost var b3 := UndoLink(sha, from, b2, staging, destination);
        b' := b3;
      }
      if !e.Proceed? { ok := false; return; }
      ok, b' := RaiseFlag(sha, from, b2);
    }

    /** The staging half of the `try` block. */
    method Stage(sha: Bytes -> string, ghost from: Origin, job: Job, ghost b: Builder)
        returns (ok: bool, zipTemp: Option<nat>, receiptTemp: Option<nat>, ghost b': Builder)
      requires Led(sha, world, from, disk, clock, b) && b == Starting(job)
      modifies this
      ensures Led(sha, world, from, disk, clock, b')
      ensures ok ==> b' == b.(zipTemp := zipTemp, receiptTemp := receiptTemp, phase := WriteZip) && zipTemp.Some? && receiptTemp.Some?
      ensures !ok ==> b' == Abort(b).(zipTemp := zipTemp, receiptTemp := receiptTemp)
    {
      receiptTemp, ok := None, false;
      ghost var b1;
      zipTemp, b1 := TemporaryFile(sha, from, b);
      b' := b1;
      if zipTemp.None? { return; }
      receiptTemp, b' := TemporaryFile(sha, from, b1);
      ok := receiptTemp.Some?;
    }

    /** Writing and checking the staged files, up to the point where nothing is in the way. */
    method Fill(sha: Bytes -> string, ghost from: Origin, job: Job, ghost b: Builder, zip: nat, receipt: nat)
        returns (ok: bool, ghost b': Builder)
      requires Led(sha, world, from, disk, clock, b) && b.phase.WriteZip? && b.job == job
      requires b.zipTemp == Some(zip) && b.receiptTemp == Some(receipt)
      modifies this
      ensures Led(sha, world, from, disk, clock, b')
      ensures b' == if ok then b.(phase := LinkZip) else Abort(b)
    {
      ghost var b1;
      ok, b1 := WriteStaged(sha, from, b, zip, Archive(job.archive));
      b' := b1;
      if !ok { return; }
      ghost var b2;
      ok, b2 := Compare(sha, from, b1, Temp(zip), Archive(job.archive));
      b' := b2;
      if !ok { return; }
      ghost var b3;
      ok, b3 := WriteStaged(sha, from, b2, receipt, Receipt(sha(job.archive)));
      b' := b3;
      if !ok { return; }
      ok, b' := BothAbsent(sha, from, job, b3);
    }

    /** Verifying the published pair. */
    method VerifyOutputs(sha: Bytes -> string, ghost from: Origin, job: Job, ghost b: Builder) returns (ok: bool, ghost b': Builder)
      requires Led(sha, world, from, disk, clock, b) && b.phase.VerifyOutZip? && b.job == job
      requires b.zipTemp.Some? && b.receiptTemp.Some?
      modifies this
      ensures Led(sha, world, from, disk, clock, b')
      ensures b' == if ok then b.(phase := CleanZipTemp) else Abort(b)
    {
      ghost var b1;
      ok, b1 := Compare(sha, from, b, Dest(job.zip), Archive(job.archive));
      b' := b1;
      if !ok { return; }
      ok, b' := Compare(sha, from, b1, Dest(job.receipt), PublishSteps.Receipt(sha(job.archive)));
    }

    /** The `try` block: the flags tell the `finally` block what this run has published. */
    method Try(sha: Bytes -> string, ghost from: Origin, job: Job, ghost b: Builder)
        returns (ok: bool, zipTemp: Option<nat>, receiptTemp: Option<nat>, publishedZip: bool, publishedReceipt: bool, ghost b': Builder)
      requires Led(sha, world, from, disk, clock, b) && b == Starting(job)
      modifies this
      ensures Led(sha, world, from, disk, clock, b') && b'.phase.CleanZipTemp? && b'.job == job
      ensures b'.zipTemp == zipTemp && b'.receiptTemp == receiptTemp
      ensures b'.publishedZip == publishedZip && b'.publishedReceipt == publishedReceipt && b'.failing == !ok
    {
      publishedZip, publishedReceipt := false, false;
      ok, zipTemp, receiptTemp, b' := Stage(sha, from, job, b);
      if !ok { return; }
      ok, b' := Fill(sha, from, job, b', zipTemp.value, receiptTemp.value);
      if !ok { return; }
      publishedZip, b' := PublishNoReplace(sha, from, b', Temp(zipTemp.value), Dest(job.zip));
      ok := publishedZip;
      if !ok { return; }
      publishedReceipt, b' := PublishNoReplace(sha, from, b', Temp(receiptTemp.value), Dest(job.receipt));
      ok := publishedReceipt;
      if !ok { return; }
      ok, b' := VerifyOutputs(sha, from, job, b');
    }

    /** The `finally` block; `undo` is whether an exception is being handled, this run's or the
        caller's. */
    method Finally(sha: Bytes -> string, ghost from: Origin, job: Job, ghost b: Builder, undo: bool,
                   zipTemp: Option<nat>, receiptTemp: Option<nat>, publishedZip: bool, publishedReceipt: bool)
        returns (ok: bool, ghost b': Builder)
      requires Led(sha, world, from, disk, clock, b) && b.phase.CleanZipTemp? && b.job == job
      requires b.zipTemp == zipTemp && b.receiptTemp == receiptTemp && undo == Undoes(b)
      requires b.publishedZip == publishedZip && b.publishedReceipt == publishedReceipt
      modifies this
      ensures Led(sha, world, from, disk, clock, b') && b'.phase.Done?
      ensures b'.failing == (b.failing || !ok)
    {
      ghost var b1;
      ok, b1 := CleanUp(sha, from, b, zipTemp.Some?, Temp(zipTemp.GetOr(0)), TempUnlinkFailed, CleanReceiptTemp);
      b' := b1;
      if !ok { return; }
      ghost var b2;
      ok, b2 := CleanUp(sha, from, b1, receiptTemp.Some?, Temp(receiptTemp.GetOr(0)), TempUnlinkFailed, CleanReceipt);
      b' := b2;
      if !ok { return; }
      ghost var b3;
      ok, b3 := CleanUp(sha, from, b2, undo && publishedReceipt, Dest(job.receipt), ReceiptUnlinkFailed, CleanZip);
      b' := b3;
      if !ok { return; }
      ok, b' := CleanUp(sha, from, b3, undo && publishedZip, Dest(job.zip), ZipUnlinkFailed, Done);
    }

    /** The transaction of `build`: it ends where the machine's steps end, and returns
        normally exactly when the machine has succeeded. */
    method Build(sha: Bytes -> string, job: Job) returns (ok: bool, ghost b: Builder)
      modifies this
      ensures Led(sha, world, Origin(job, old(disk), old(clock)), disk, clock, b) && b.phase.Done?
      ensures ok <==> Succeeded(b)
    {
      ghost var from := Origin(job, disk, clock);
      var tried, zipTemp, receiptTemp, publishedZip, publishedReceipt;
      ghost var b1;
      tried, zipTemp, receiptTemp, publishedZip, publishedReceipt, b1 := Try(sha, from, job, Starting(job));
      var cleaned;
      cleaned, b := Finally(sha, from, job, b1, !tried || job.handling, zipTemp, receiptTemp, publishedZip, publishedReceipt);
      ok := tried && cleaned;
    }
  }
}
