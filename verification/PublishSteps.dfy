/** The publishing transaction of the defense kit's `build`: any number of builders, each
    staging a ZIP and a receipt, hard-linking them to their destinations without replacing,
    verifying, and rolling back what it published itself.  Every step may be hit by a fault
    or by an asynchronous interrupt, and steps of different builders interleave freely. */
module PublishSteps {
  import opened Text

  /** `mkstemp` names end in `.tmp`, destinations in `.zip` or `.json`: they never meet. */
  datatype Place = Temp(id: nat) | Dest(name: string)

  datatype Content = Blank | Scratch | Archive(data: Bytes) | Receipt(zipSha256: string)

  /** Names point at inodes; hard links share one.  A fresh temporary file has a fresh inode. */
  datatype Disk = Disk(names: map<Place, nat>, data: map<nat, Content>, next: nat)

  /** `handling`: the caller is already handling an exception when it calls `build`. */
  datatype Job = Job(zip: string, receipt: string, archive: Bytes, handling: bool)

  datatype Phase =
    | MakeZipTemp | MakeReceiptTemp | WriteZip | VerifyZip | WriteReceipt | CheckAbsent
    | LinkZip | DropZipTemp | UndoZip | FlagZip
    | LinkReceipt | DropReceiptTemp | UndoReceipt | FlagReceipt
    | VerifyOutZip | VerifyOutReceipt
    | CleanZipTemp | CleanReceiptTemp | CleanReceipt | CleanZip | Done

  /** What can go wrong in a way the rollback cannot repair. */
  datatype Mishap =
    | InterruptedBeforeZipFlag | ZipUnlinkFailed
    | InterruptedBeforeReceiptFlag | ReceiptUnlinkFailed
    | TempUnlinkFailed
    | ZipKeptByInterrupt | ReceiptKeptByInterrupt | TempKeptByInterrupt  // during the cleanup

  datatype Builder = Builder(
    job: Job, phase: Phase, failing: bool,
    zipTemp: Option<nat>, receiptTemp: Option<nat>,
    publishedZip: bool, publishedReceipt: bool,
    mishaps: set<Mishap>)

  /** A fault is an I/O error of the current operation; an interrupt arrives before it. */
  datatype Event = Proceed | Fault | Interrupt

  // ---------------------------------------------------------------- one builder's step

  function Abort(b: Builder): Builder { b.(failing := true, phase := CleanZipTemp) }

  function AbortWith(b: Builder, m: Mishap): Builder { Abort(b).(mishaps := b.mishaps + {m}) }

  function WithTemp(d: Disk): Disk {
    Disk(d.names[Temp(d.next) := d.next], d.data[d.next := Blank], d.next + 1)
  }

  function Unlink(d: Disk, p: Place): Disk { d.(names := d.names - {p}) }

  function Put(d: Disk, inode: nat, c: Content): Disk { d.(data := d.data[inode := c]) }

  predicate Shows(d: Disk, p: Place, c: Content) {
    p in d.names && d.names[p] in d.data && d.data[d.names[p]] == c
  }

  /** `os.link`: only from an existing name to an absent one. */
  predicate CanLink(d: Disk, from: Place, to: Place) { from in d.names && to !in d.names }

  function Link(d: Disk, from: Place, to: Place): Disk
    requires CanLink(d, from, to)
  {
    d.(names := d.names[to := d.names[from]])
  }

  /** Whether the builder has the temporary files its phase works on. */
  predicate Equipped(b: Builder) {
    match b.phase
    case MakeZipTemp => true
    case MakeReceiptTemp => b.zipTemp.Some?
    case CleanZipTemp => true
    case CleanReceiptTemp => true
    case CleanReceipt => true
    case CleanZip => true
    case Done => true
    case _ => b.zipTemp.Some? && b.receiptTemp.Some?
  }

  /** `sys.exc_info()[0] is not None` in the `finally` block: this run has failed, or the caller
      is handling an exception of its own. */
  predicate Undoes(b: Builder) { b.failing || b.job.handling }

  /** What a cleanup that ends here has not removed. */
  function KeptFrom(b: Builder): set<Mishap> {
    {ZipKeptByInterrupt}
    + (if b.phase.CleanZip? && Undoes(b) then {} else {ReceiptKeptByInterrupt})
    + (if b.phase in {CleanZipTemp, CleanReceiptTemp} then {TempKeptByInterrupt} else {})
  }

  function CutShort(b: Builder): Builder { b.(failing := true, phase := Done, mishaps := b.mishaps + KeptFrom(b)) }

  /** `unlink(missing_ok=True)` whose errors are swallowed; an interrupt ends the cleanup. */
  function Clean(d: Disk, b: Builder, needed: bool, p: Place, e: Event, m: Mishap, then_: Phase): (Disk, Builder) {
    if e.Interrupt? then (d, CutShort(b))
    else if !needed then (d, b.(phase := then_))
    else if e.Fault? then (d, b.(phase := then_, mishaps := b.mishaps + {m}))
    else (Unlink(d, p), b.(phase := then_))
  }

  function Act(sha: Bytes -> string, d: Disk, b: Builder, e: Event): (Disk, Builder)
    requires Equipped(b)
  {
    var zip, receipt := Dest(b.job.zip), Dest(b.job.receipt);
    match b.phase
    case MakeZipTemp =>
      if e.Proceed? then (WithTemp(d), b.(zipTemp := Some(d.next), phase := MakeReceiptTemp)) else (d, Abort(b))
    case MakeReceiptTemp =>
      if e.Proceed? then (WithTemp(d), b.(receiptTemp := Some(d.next), phase := WriteZip)) else (d, Abort(b))
    case WriteZip =>
      if e.Proceed? then (Put(d, b.zipTemp.value, Archive(b.job.archive)), b.(phase := VerifyZip))
      else (Put(d, b.zipTemp.value, Scratch), Abort(b))
    case VerifyZip =>
      if e.Proceed? && Shows(d, Temp(b.zipTemp.value), Archive(b.job.archive)) then (d, b.(phase := WriteReceipt))
      else (d, Abort(b))
    case WriteReceipt =>
      if e.Proceed? then (Put(d, b.receiptTemp.value, Receipt(sha(b.job.archive))), b.(phase := CheckAbsent))
      else (Put(d, b.receiptTemp.value, Scratch), Abort(b))
    case CheckAbsent =>
      if e.Proceed? && zip !in d.names && receipt !in d.names then (d, b.(phase := LinkZip)) else (d, Abort(b))

    case LinkZip =>
      if e.Proceed? && CanLink(d, Temp(b.zipTemp.value), zip)
      then (Link(d, Temp(b.zipTemp.value), zip), b.(phase := DropZipTemp)) else (d, Abort(b))
    case DropZipTemp =>
      (match e
       case Proceed => (Unlink(d, Temp(b.zipTemp.value)), b.(phase := FlagZip))
       case Fault => (d, b.(phase := UndoZip))
       case Interrupt => (d, AbortWith(b, InterruptedBeforeZipFlag)))
    case UndoZip =>
      (match e
       case Proceed => (Unlink(d, zip), Abort(b))
       case Fault => (d, AbortWith(b, ZipUnlinkFailed))
       case Interrupt => (d, AbortWith(b, InterruptedBeforeZipFlag)))
    case FlagZip =>
      if e.Interrupt? then (d, AbortWith(b, InterruptedBeforeZipFlag))
      else (d, b.(publishedZip := true, phase := LinkReceipt))

    case LinkReceipt =>
      if e.Proceed? && CanLink(d, Temp(b.receiptTemp.value), receipt)
      then (Link(d, Temp(b.receiptTemp.value), receipt), b.(phase := DropReceiptTemp)) else (d, Abort(b))
    case DropReceiptTemp =>
      (match e
       case Proceed => (Unlink(d, Temp(b.receiptTemp.value)), b.(phase := FlagReceipt))
       case Fault => (d, b.(phase := UndoReceipt))
       case Interrupt => (d, AbortWith(b, InterruptedBeforeReceiptFlag)))
    case UndoReceipt =>
      (match e
       case Proceed => (Unlink(d, receipt), Abort(b))
       case Fault => (d, AbortWith(b, ReceiptUnlinkFailed))
       case Interrupt => (d, AbortWith(b, InterruptedBeforeReceiptFlag)))
    case FlagReceipt =>
      if e.Interrupt? then (d, AbortWith(b, InterruptedBeforeReceiptFlag))
      else (d, b.(publishedReceipt := true, phase := VerifyOutZip))

    case VerifyOutZip =>
      if e.Proceed? && Shows(d, zip, Archive(b.job.archive)) then (d, b.(phase := VerifyOutReceipt)) else (d, Abort(b))
    case VerifyOutReceipt =>
      if e.Proceed? && Shows(d, receipt, Receipt(sha(b.job.archive))) then (d, b.(phase := CleanZipTemp))
      else (d, Abort(b))

    // The `finally` block: temporaries always, then the receipt before the ZIP if need be.
    case CleanZipTemp => Clean(d, b, b.zipTemp.Some?, Temp(b.zipTemp.GetOr(0)), e, TempUnlinkFailed, CleanReceiptTemp)
    case CleanReceiptTemp => Clean(d, b, b.receiptTemp.Some?, Temp(b.receiptTemp.GetOr(0)), e, TempUnlinkFailed, CleanReceipt)
    case CleanReceipt => Clean(d, b, Undoes(b) && b.publishedReceipt, receipt, e, ReceiptUnlinkFailed, CleanZip)
    case CleanZip => Clean(d, b, Undoes(b) && b.publishedZip, zip, e, ZipUnlinkFailed, Done)
    case Done => (d, b)
  }

  // ---------------------------------------------------------------- what a builder relies on

  function Own(b: Builder): set<nat> {
    (if b.zipTemp.Some? then {b.zipTemp.value} else {}) + (if b.receiptTemp.Some? then {b.receiptTemp.value} else {})
  }

  /** The file this builder staged is visible at its destination. */
  predicate ZipVisible(d: Disk, b: Builder) {
    b.zipTemp.Some? && Dest(b.job.zip) in d.names && d.names[Dest(b.job.zip)] == b.zipTemp.value
  }

  predicate ReceiptVisible(d: Disk, b: Builder) {
    b.receiptTemp.Some? && Dest(b.job.receipt) in d.names && d.names[Dest(b.job.receipt)] == b.receiptTemp.value
  }

  predicate ZipLeft(b: Builder) {
    || InterruptedBeforeZipFlag in b.mishaps || ZipUnlinkFailed in b.mishaps
    || (b.publishedZip && ZipKeptByInterrupt in b.mishaps)
  }

  predicate ReceiptLeft(b: Builder) {
    || InterruptedBeforeReceiptFlag in b.mishaps || ReceiptUnlinkFailed in b.mishaps
    || (b.publishedReceipt && ReceiptKeptByInterrupt in b.mishaps)
  }

  predicate TempLeft(b: Builder) { TempUnlinkFailed in b.mishaps || TempKeptByInterrupt in b.mishaps }

  /** Whether the ZIP should be visible, judged from the builder alone. */
  predicate ZipDue(b: Builder) {
    || b.phase in {DropZipTemp, UndoZip, FlagZip}
    || (b.publishedZip && !(Undoes(b) && b.phase.Done?))
    || ZipLeft(b)
  }

  predicate ReceiptDue(b: Builder) {
    || b.phase in {DropReceiptTemp, UndoReceipt, FlagReceipt}
    || (b.publishedReceipt && !(Undoes(b) && b.phase in {CleanZip, Done}))
    || ReceiptLeft(b)
  }

  predicate Finishing(b: Builder) { b.phase in {CleanZipTemp, CleanReceiptTemp, CleanReceipt, CleanZip, Done} }

  predicate ZipWritten(b: Builder) {
    !Finishing(b) && b.phase !in {MakeZipTemp, MakeReceiptTemp, WriteZip, VerifyZip}
  }

  predicate ReceiptWritten(b: Builder) { ZipWritten(b) && !b.phase.WriteReceipt? }

  predicate AfterZip(b: Builder) {
    b.phase in {LinkReceipt, DropReceiptTemp, UndoReceipt, FlagReceipt, VerifyOutZip, VerifyOutReceipt}
  }

  predicate FlagMissed(b: Builder) {
    InterruptedBeforeZipFlag in b.mishaps || InterruptedBeforeReceiptFlag in b.mishaps
  }

  /** How the builder's own variables hang together. */
  predicate Coherent(b: Builder) {
    && b.job.zip != b.job.receipt
    && Equipped(b)
    && (b.zipTemp.Some? && b.receiptTemp.Some? ==> b.zipTemp.value != b.receiptTemp.value)
    && (b.receiptTemp.Some? ==> b.zipTemp.Some?)
    && (b.phase.MakeZipTemp? ==> b.zipTemp.None?) && (b.phase.MakeReceiptTemp? ==> b.receiptTemp.None?)
    && (!Finishing(b) ==> !b.failing && !ZipLeft(b) && !ReceiptLeft(b))
    && (!Finishing(b) ==> (b.publishedZip <==> AfterZip(b)))
    && (!Finishing(b) ==> (b.publishedReceipt <==> b.phase in {VerifyOutZip, VerifyOutReceipt}))
    && (Finishing(b) && !b.failing ==> b.publishedReceipt && !FlagMissed(b))
    && (!Undoes(b) || (!b.failing && !b.phase.CleanZip? && !b.phase.Done?) ==> !ZipLeft(b) && !ReceiptLeft(b))
    && (!b.phase.Done? || !b.failing ==> b.mishaps !! {ZipKeptByInterrupt, ReceiptKeptByInterrupt, TempKeptByInterrupt})
    && (b.publishedReceipt || ReceiptLeft(b) ==> b.publishedZip)
    && (b.publishedZip ==> b.receiptTemp.Some?) && (ZipLeft(b) ==> b.zipTemp.Some?)
    && (ZipLeft(b) && b.publishedZip ==> b.phase.Done?)
    && (ReceiptLeft(b) && b.publishedReceipt ==> b.phase in {CleanZip, Done})
  }

  predicate TempSound(d: Disk, id: Option<nat>) {
    id.Some? ==> id.value in d.data && (Temp(id.value) in d.names ==> d.names[Temp(id.value)] == id.value)
  }

  /** Leftover temporaries have a reason. */
  predicate TempsCleared(d: Disk, b: Builder) {
    && (b.phase in {CleanReceiptTemp, CleanReceipt, CleanZip, Done} && b.zipTemp.Some? ==>
          (Temp(b.zipTemp.value) in d.names ==> TempLeft(b)))
    && (b.phase in {CleanReceipt, CleanZip, Done} && b.receiptTemp.Some? ==>
          (Temp(b.receiptTemp.value) in d.names ==> TempLeft(b)))
  }

  predicate Holds(sha: Bytes -> string, d: Disk, b: Builder) {
    && Coherent(b)
    && TempSound(d, b.zipTemp) && TempSound(d, b.receiptTemp) && TempsCleared(d, b)
    && (ZipVisible(d, b) <==> ZipDue(b))
    && (ReceiptVisible(d, b) <==> ReceiptDue(b))
    && (ZipWritten(b) || ZipDue(b) ==> d.data[b.zipTemp.value] == Archive(b.job.archive))
    && (ReceiptWritten(b) || ReceiptDue(b) ==> d.data[b.receiptTemp.value] == Receipt(sha(b.job.archive)))
  }

  predicate DiskSound(d: Disk) {
    && (forall p | p in d.names :: d.names[p] < d.next && (p.Temp? ==> p.id < d.next))
    && forall k | k in d.data :: k < d.next
  }

  /** A builder's step leaves alone every name and inode that is not its own. */
  ghost predicate TouchesOnlyOwn(d: Disk, d': Disk, b: Builder, b': Builder) {
    && b'.job == b.job && Own(b) <= Own(b') && d.next <= d'.next
    && (forall k | k in Own(b') :: k in Own(b) || d.next <= k < d'.next)
    && (forall p | p in d.names && d.names[p] !in Own(b) :: p in d'.names && d'.names[p] == d.names[p])
    && (forall p | p in d'.names && !(p in d.names && d.names[p] == d'.names[p]) ::
          d'.names[p] in Own(b') && (p.Temp? ==> p.id == d'.names[p]))
    && (forall k | k in d.data :: k in d'.data)
    && forall k | k in d.data && k !in Own(b) :: d'.data[k] == d.data[k]
  }

  /** A step keeps the builder's invariant and touches nothing foreign. */
  ghost predicate Kept(sha: Bytes -> string, d: Disk, b: Builder, d': Disk, b': Builder) {
    Holds(sha, d', b') && DiskSound(d') && TouchesOnlyOwn(d, d', b, b')
  }

  ghost predicate Ready(sha: Bytes -> string, d: Disk, b: Builder) {
    DiskSound(d) && Holds(sha, d, b) && forall k | k in Own(b) :: k < d.next
  }

  /** Removing a name that stands for one's own file, if it stands at all, touches nothing foreign. */
  lemma UnlinkOwn(d: Disk, b: Builder, b': Builder, p: Place)
    requires DiskSound(d) && b'.job == b.job && Own(b') == Own(b)
    requires p in d.names ==> d.names[p] in Own(b)
    ensures DiskSound(Unlink(d, p)) && TouchesOnlyOwn(d, Unlink(d, p), b, b')
  {
  }

  /** Giving up before anything is linked, or after the linked file has its flag. */
  predicate Settled(b: Builder) {
    b.phase in {MakeZipTemp, MakeReceiptTemp, VerifyZip, CheckAbsent, LinkZip, LinkReceipt, VerifyOutZip, VerifyOutReceipt}
  }

  lemma AbortDue(sha: Bytes -> string, d: Disk, b: Builder)
    requires Ready(sha, d, b) && Settled(b)
    ensures Coherent(Abort(b)) && (ZipDue(Abort(b)) <==> ZipDue(b)) && (ReceiptDue(Abort(b)) <==> ReceiptDue(b))
  {
  }

  lemma AbortKept(sha: Bytes -> string, d: Disk, b: Builder)
    requires Ready(sha, d, b) && Settled(b)
    ensures Kept(sha, d, b, d, Abort(b))
  {
    AbortDue(sha, d, b);
  }

  lemma MakeZipTempKept(sha: Bytes -> string, d: Disk, b: Builder, e: Event)
    requires Ready(sha, d, b) && b.phase.MakeZipTemp?
    ensures Kept(sha, d, b, Act(sha, d, b, e).0, Act(sha, d, b, e).1)
  {
    if !e.Proceed? { AbortKept(sha, d, b); }
  }

  lemma MakeReceiptTempKept(sha: Bytes -> string, d: Disk, b: Builder, e: Event)
    requires Ready(sha, d, b) && b.phase.MakeReceiptTemp?
    ensures Kept(sha, d, b, Act(sha, d, b, e).0, Act(sha, d, b, e).1)
  {
    if !e.Proceed? { AbortKept(sha, d, b); }
  }

  lemma WriteZipKept(sha: Bytes -> string, d: Disk, b: Builder, e: Event)
    requires Ready(sha, d, b) && b.phase.WriteZip?
    ensures Kept(sha, d, b, Act(sha, d, b, e).0, Act(sha, d, b, e).1)
  {
  }

  lemma WriteReceiptKept(sha: Bytes -> string, d: Disk, b: Builder, e: Event)
    requires Ready(sha, d, b) && b.phase.WriteReceipt?
    ensures Kept(sha, d, b, Act(sha, d, b, e).0, Act(sha, d, b, e).1)
  {
  }

  lemma VerifyZipKept(sha: Bytes -> string, d: Disk, b: Builder, e: Event)
    requires Ready(sha, d, b) && b.phase.VerifyZip?
    ensures Kept(sha, d, b, Act(sha, d, b, e).0, Act(sha, d, b, e).1)
  {
    AbortKept(sha, d, b);
  }

  lemma CheckAbsentKept(sha: Bytes -> string, d: Disk, b: Builder, e: Event)
    requires Ready(sha, d, b) && b.phase.CheckAbsent?
    ensures Kept(sha, d, b, Act(sha, d, b, e).0, Act(sha, d, b, e).1)
  {
    AbortKept(sha, d, b);
  }

  /** Giving up between a link and its flag, or with a link that cannot be undone: what is
      linked stays, and the mishap says so. */
  lemma ZipMissedKept(sha: Bytes -> string, d: Disk, b: Builder, m: Mishap)
    requires Ready(sha, d, b) && b.phase in {DropZipTemp, UndoZip, FlagZip} && m in {InterruptedBeforeZipFlag, ZipUnlinkFailed}
    ensures Kept(sha, d, b, d, AbortWith(b, m))
  {
  }

  lemma ReceiptMissedKept(sha: Bytes -> string, d: Disk, b: Builder, m: Mishap)
    requires Ready(sha, d, b) && b.phase in {DropReceiptTemp, UndoReceipt, FlagReceipt}
    requires m in {InterruptedBeforeReceiptFlag, ReceiptUnlinkFailed}
    ensures Kept(sha, d, b, d, AbortWith(b, m))
  {
  }

  lemma LinkZipKept(sha: Bytes -> string, d: Disk, b: Builder, e: Event)
    requires Ready(sha, d, b) && b.phase.LinkZip?
    ensures Kept(sha, d, b, Act(sha, d, b, e).0, Act(sha, d, b, e).1)
  {
  }

  lemma DropZipTempKept(sha: Bytes -> string, d: Disk, b: Builder, e: Event)
    requires Ready(sha, d, b) && b.phase.DropZipTemp?
    ensures Kept(sha, d, b, Act(sha, d, b, e).0, Act(sha, d, b, e).1)
  {
    match e
    case Proceed => UnlinkOwn(d, b, b.(phase := FlagZip), Temp(b.zipTemp.value));
    case Fault =>
    case Interrupt => ZipMissedKept(sha, d, b, InterruptedBeforeZipFlag);
  }

  lemma UndoZipKept(sha: Bytes -> string, d: Disk, b: Builder, e: Event)
    requires Ready(sha, d, b) && b.phase.UndoZip?
    ensures Kept(sha, d, b, Act(sha, d, b, e).0, Act(sha, d, b, e).1)
  {
    match e
    case Proceed => UnlinkOwn(d, b, Abort(b), Dest(b.job.zip));
    case Fault => ZipMissedKept(sha, d, b, ZipUnlinkFailed);
    case Interrupt => ZipMissedKept(sha, d, b, InterruptedBeforeZipFlag);
  }

  lemma LinkReceiptKept(sha: Bytes -> string, d: Disk, b: Builder, e: Event)
    requires Ready(sha, d, b) && b.phase.LinkReceipt?
    ensures Kept(sha, d, b, Act(sha, d, b, e).0, Act(sha, d, b, e).1)
  {
  }

  lemma DropReceiptTempKept(sha: Bytes -> string, d: Disk, b: Builder, e: Event)
    requires Ready(sha, d, b) && b.phase.DropReceiptTemp?
    ensures Kept(sha, d, b, Act(sha, d, b, e).0, Act(sha, d, b, e).1)
  {
    match e
    case Proceed => UnlinkOwn(d, b, b.(phase := FlagReceipt), Temp(b.receiptTemp.value));
    case Fault =>
    case Interrupt => ReceiptMissedKept(sha, d, b, InterruptedBeforeReceiptFlag);
  }

  lemma UndoReceiptKept(sha: Bytes -> string, d: Disk, b: Builder, e: Event)
    requires Ready(sha, d, b) && b.phase.UndoReceipt?
    ensures Kept(sha, d, b, Act(sha, d, b, e).0, Act(sha, d, b, e).1)
  {
    match e
    case Proceed => UnlinkOwn(d, b, Abort(b), Dest(b.job.receipt));
    case Fault => ReceiptMissedKept(sha, d, b, ReceiptUnlinkFailed);
    case Interrupt => ReceiptMissedKept(sha, d, b, InterruptedBeforeReceiptFlag);
  }

  lemma FlagZipKept(sha: Bytes -> string, d: Disk, b: Builder, e: Event)
    requires Ready(sha, d, b) && b.phase.FlagZip?
    ensures Kept(sha, d, b, Act(sha, d, b, e).0, Act(sha, d, b, e).1)
  {
    if e.Interrupt? { ZipMissedKept(sha, d, b, InterruptedBeforeZipFlag); }
  }

  lemma FlagReceiptKept(sha: Bytes -> string, d: Disk, b: Builder, e: Event)
    requires Ready(sha, d, b) && b.phase.FlagReceipt?
    ensures Kept(sha, d, b, Act(sha, d, b, e).0, Act(sha, d, b, e).1)
  {
    if e.Interrupt? { ReceiptMissedKept(sha, d, b, InterruptedBeforeReceiptFlag); }
  }

  lemma VerifyOutZipKept(sha: Bytes -> string, d: Disk, b: Builder, e: Event)
    requires Ready(sha, d, b) && b.phase.VerifyOutZip?
    ensures Kept(sha, d, b, Act(sha, d, b, e).0, Act(sha, d, b, e).1)
  {
    AbortKept(sha, d, b);
  }

  lemma VerifyOutReceiptKept(sha: Bytes -> string, d: Disk, b: Builder, e: Event)
    requires Ready(sha, d, b) && b.phase.VerifyOutReceipt?
    ensures Kept(sha, d, b, Act(sha, d, b, e).0, Act(sha, d, b, e).1)
  {
    AbortKept(sha, d, b);
  }

  lemma DoneKept(sha: Bytes -> string, d: Disk, b: Builder, e: Event)
    requires Ready(sha, d, b) && b.phase.Done?
    ensures Kept(sha, d, b, Act(sha, d, b, e).0, Act(sha, d, b, e).1)
  {
  }

  predicate Cleaning(b: Builder) { b.phase in {CleanZipTemp, CleanReceiptTemp, CleanReceipt, CleanZip} }

  lemma CutShortCoherent(sha: Bytes -> string, d: Disk, b: Builder)
    requires Ready(sha, d, b) && Cleaning(b)
    ensures Coherent(CutShort(b)) && TempsCleared(d, CutShort(b))
  {
  }

  lemma CutShortDue(sha: Bytes -> string, d: Disk, b: Builder)
    requires Ready(sha, d, b) && Cleaning(b)
    ensures ZipDue(CutShort(b)) <==> ZipDue(b)
    ensures ReceiptDue(CutShort(b)) <==> ReceiptDue(b)
  {
  }

  /** An interrupt during the cleanup leaves everything as it is, and says so. */
  lemma CutShortHolds(sha: Bytes -> string, d: Disk, b: Builder)
    requires Ready(sha, d, b) && Cleaning(b)
    ensures Holds(sha, d, CutShort(b)) && TouchesOnlyOwn(d, d, b, CutShort(b))
  {
    assert ZipKeptByInterrupt in CutShort(b).mishaps;
    CutShortCoherent(sha, d, b);
    CutShortDue(sha, d, b);
  }

  lemma ZipTempRemoved(sha: Bytes -> string, d: Disk, b: Builder)
    requires Ready(sha, d, b) && b.phase.CleanZipTemp? && b.zipTemp.Some?
    ensures Holds(sha, Unlink(d, Temp(b.zipTemp.value)), b.(phase := CleanReceiptTemp))
  {
  }

  lemma CleanZipTempHolds(sha: Bytes -> string, d: Disk, b: Builder, e: Event)
    requires Ready(sha, d, b) && b.phase.CleanZipTemp? && !e.Interrupt?
    ensures Holds(sha, Act(sha, d, b, e).0, Act(sha, d, b, e).1)
  {
    if e.Proceed? && b.zipTemp.Some? { ZipTempRemoved(sha, d, b); }
  }

  lemma ReceiptTempRemoved(sha: Bytes -> string, d: Disk, b: Builder)
    requires Ready(sha, d, b) && b.phase.CleanReceiptTemp? && b.receiptTemp.Some?
    ensures Holds(sha, Unlink(d, Temp(b.receiptTemp.value)), b.(phase := CleanReceipt))
  {
  }

  lemma CleanReceiptTempHolds(sha: Bytes -> string, d: Disk, b: Builder, e: Event)
    requires Ready(sha, d, b) && b.phase.CleanReceiptTemp? && !e.Interrupt?
    ensures Holds(sha, Act(sha, d, b, e).0, Act(sha, d, b, e).1)
  {
    if e.Proceed? && b.receiptTemp.Some? { ReceiptTempRemoved(sha, d, b); }
  }

  lemma CleanZipTempKept(sha: Bytes -> string, d: Disk, b: Builder, e: Event)
    requires Ready(sha, d, b) && b.phase.CleanZipTemp? && !e.Interrupt?
    ensures Kept(sha, d, b, Act(sha, d, b, e).0, Act(sha, d, b, e).1)
  {
    CleanZipTempHolds(sha, d, b, e);
    if b.zipTemp.Some? { UnlinkOwn(d, b, Act(sha, d, b, e).1, Temp(b.zipTemp.value)); }
  }

  lemma CleanReceiptTempKept(sha: Bytes -> string, d: Disk, b: Builder, e: Event)
    requires Ready(sha, d, b) && b.phase.CleanReceiptTemp? && !e.Interrupt?
    ensures Kept(sha, d, b, Act(sha, d, b, e).0, Act(sha, d, b, e).1)
  {
    CleanReceiptTempHolds(sha, d, b, e);
    if b.receiptTemp.Some? { UnlinkOwn(d, b, Act(sha, d, b, e).1, Temp(b.receiptTemp.value)); }
  }

  lemma ReceiptRemoved(sha: Bytes -> string, d: Disk, b: Builder)
    requires Ready(sha, d, b) && b.phase.CleanReceipt? && Undoes(b) && b.publishedReceipt
    ensures Holds(sha, Unlink(d, Dest(b.job.receipt)), b.(phase := CleanZip))
  {
  }

  lemma CleanReceiptHolds(sha: Bytes -> string, d: Disk, b: Builder, e: Event)
    requires Ready(sha, d, b) && b.phase.CleanReceipt? && !e.Interrupt?
    ensures Holds(sha, Act(sha, d, b, e).0, Act(sha, d, b, e).1)
  {
    if e.Proceed? && Undoes(b) && b.publishedReceipt { ReceiptRemoved(sha, d, b); }
  }

  lemma ZipRemoved(sha: Bytes -> string, d: Disk, b: Builder)
    requires Ready(sha, d, b) && b.phase.CleanZip? && Undoes(b) && b.publishedZip
    ensures Holds(sha, Unlink(d, Dest(b.job.zip)), b.(phase := Done))
  {
  }

  lemma CleanZipHolds(sha: Bytes -> string, d: Disk, b: Builder, e: Event)
    requires Ready(sha, d, b) && b.phase.CleanZip? && !e.Interrupt?
    ensures Holds(sha, Act(sha, d, b, e).0, Act(sha, d, b, e).1)
  {
    if e.Proceed? && Undoes(b) && b.publishedZip { ZipRemoved(sha, d, b); }
  }

  lemma CleanReceiptKept(sha: Bytes -> string, d: Disk, b: Builder, e: Event)
    requires Ready(sha, d, b) && b.phase.CleanReceipt? && !e.Interrupt?
    ensures Kept(sha, d, b, Act(sha, d, b, e).0, Act(sha, d, b, e).1)
  {
    CleanReceiptHolds(sha, d, b, e);
    if Undoes(b) && b.publishedReceipt { UnlinkOwn(d, b, Act(sha, d, b, e).1, Dest(b.job.receipt)); }
  }

  lemma CleanZipKept(sha: Bytes -> string, d: Disk, b: Builder, e: Event)
    requires Ready(sha, d, b) && b.phase.CleanZip? && !e.Interrupt?
    ensures Kept(sha, d, b, Act(sha, d, b, e).0, Act(sha, d, b, e).1)
  {
    CleanZipHolds(sha, d, b, e);
    if Undoes(b) && b.publishedZip { UnlinkOwn(d, b, Act(sha, d, b, e).1, Dest(b.job.zip)); }
  }

  lemma CleanKept(sha: Bytes -> string, d: Disk, b: Builder, e: Event)
    requires Ready(sha, d, b) && Cleaning(b)
    ensures Kept(sha, d, b, Act(sha, d, b, e).0, Act(sha, d, b, e).1)
  {
    if e.Interrupt? {
      CutShortHolds(sha, d, b);
    } else {
      match b.phase
      case CleanZipTemp => CleanZipTempKept(sha, d, b, e);
      case CleanReceiptTemp => CleanReceiptTempKept(sha, d, b, e);
      case CleanReceipt => CleanReceiptKept(sha, d, b, e);
      case CleanZip => CleanZipKept(sha, d, b, e);
    }
  }

  lemma ActKeeps(sha: Bytes -> string, d: Disk, b: Builder, e: Event)
    requires Ready(sha, d, b)
    ensures Kept(sha, d, b, Act(sha, d, b, e).0, Act(sha, d, b, e).1)
  {
    match b.phase
    case MakeZipTemp => MakeZipTempKept(sha, d, b, e);
    case MakeReceiptTemp => MakeReceiptTempKept(sha, d, b, e);
    case WriteZip => WriteZipKept(sha, d, b, e);
    case VerifyZip => VerifyZipKept(sha, d, b, e);
    case WriteReceipt => WriteReceiptKept(sha, d, b, e);
    case CheckAbsent => CheckAbsentKept(sha, d, b, e);
    case LinkZip => LinkZipKept(sha, d, b, e);
    case DropZipTemp => DropZipTempKept(sha, d, b, e);
    case UndoZip => UndoZipKept(sha, d, b, e);
    case FlagZip => FlagZipKept(sha, d, b, e);
    case LinkReceipt => LinkReceiptKept(sha, d, b, e);
    case DropReceiptTemp => DropReceiptTempKept(sha, d, b, e);
    case UndoReceipt => UndoReceiptKept(sha, d, b, e);
    case FlagReceipt => FlagReceiptKept(sha, d, b, e);
    case VerifyOutZip => VerifyOutZipKept(sha, d, b, e);
    case VerifyOutReceipt => VerifyOutReceiptKept(sha, d, b, e);
    case CleanZipTemp => CleanKept(sha, d, b, e);
    case CleanReceiptTemp => CleanKept(sha, d, b, e);
    case CleanReceipt => CleanKept(sha, d, b, e);
    case CleanZip => CleanKept(sha, d, b, e);
    case Done => DoneKept(sha, d, b, e);
  }

  /** The steps that leave something unrepaired: an interrupt between a link and its flag or
      during the cleanup, and a removal that fails. */
  predicate CanStrand(b: Builder, e: Event) {
    match e
    case Proceed => false
    case Interrupt =>
      b.phase in {DropZipTemp, UndoZip, FlagZip, DropReceiptTemp, UndoReceipt, FlagReceipt,
                  CleanZipTemp, CleanReceiptTemp, CleanReceipt, CleanZip}
    case Fault =>
      || b.phase in {UndoZip, UndoReceipt}
      || (b.phase.CleanZipTemp? && b.zipTemp.Some?) || (b.phase.CleanReceiptTemp? && b.receiptTemp.Some?)
      || (b.phase.CleanReceipt? && Undoes(b) && b.publishedReceipt) || (b.phase.CleanZip? && Undoes(b) && b.publishedZip)
  }

  /** Only such a step adds to the mishaps, and it always does. */
  lemma MishapNeedsCause(sha: Bytes -> string, d: Disk, b: Builder, e: Event)
    requires Equipped(b)
    ensures !CanStrand(b, e) ==> Act(sha, d, b, e).1.mishaps == b.mishaps
    ensures b.mishaps == {} && CanStrand(b, e) ==> Act(sha, d, b, e).1.mishaps != {}
  {
    if e.Interrupt? { assert ZipKeptByInterrupt in KeptFrom(b); }
  }
}
