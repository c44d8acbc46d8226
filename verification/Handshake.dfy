/**
The rootless id-map handshake: a parent that unshares a user namespace and a
helper, forked before the unshare, that runs `newuidmap` and `newgidmap` against
it.  The two processes meet over the pipes `go` (parent to helper) and `res`
(helper to parent) and are modelled as one system whose steps interleave freely.

Each process holds its own copies of the pipe descriptors.  A read of an empty
pipe blocks while any process still holds the write end and sees the end of the
stream otherwise; a write to a full pipe blocks.  Results of system calls
(`fork`, `unshare`, the two helpers, a failing read, how much one write moves)
are chosen by the environment and appear as arguments of the actions.
*/
module Handshake {
  import opened Wrappers

  /**
  `capacity` of the `res` pipe, the helper's error `text`, whether a `read` may fail,
  and whether a signal may kill the helper (and the id helper it is running).
  */
  datatype Config = Config(capacity: nat, text: seq<byte>, readsMayFail: bool, mayDie: bool)

  /** Bytes read per `read` of the error text, and the length after which reading stops. */
  const CHUNK := 512
  const TEXT_LIMIT := 8192

  datatype End = GoRead | GoWrite | ResRead | ResWrite

  const AllEnds := {GoRead, GoWrite, ResRead, ResWrite}

  /** Where the parent stands; `Returned` and `Aborted` are final. */
  datatype Parent =
    | Forking | ClosingGoRead | ClosingResWrite | Unsharing
    | Signalling | ReadingStatus | ReadingText | Waiting
    | Returned(ok: bool) | Aborted

  /** Where the helper stands. */
  datatype Child =
    | NotForked | ClosingGoWrite | ClosingResRead | ReadingGo
    | MappingUids | MappingGids | ReportingOk | ReportingErr | SendingText
    | Exiting | Zombie | Reaped

  datatype State = State(
    parent: Parent,
    child: Child,
    parentEnds: set<End>,
    childEnds: set<End>,
    go: seq<byte>,            // bytes in the `go` pipe
    res: seq<byte>,           // bytes in the `res` pipe
    unshared: bool,           // the parent has left the host user namespace
    uidMapped: Option<bool>,  // how `newuidmap` ended, once it ran
    gidMapped: Option<bool>,  // how `newgidmap` ended, once it ran
    goFailed: bool,           // the parent's write to `go` failed
    status: Option<byte>,     // the status byte the parent read
    msg: seq<byte>,           // the error text the parent collected
    dropped: seq<byte>,       // text the parent read and threw away
    sent: seq<byte>)          // everything the helper has written to `res`

  datatype Action =
    | Fork(ok: bool) | CloseGoRead | CloseResWrite | Unshare(ok: bool)
    | Signal | ReadStatus(fault: bool) | ReadText(fault: bool) | Reap
    | CloseGoWrite | CloseResRead | ReadGo(fault: bool)
    | NewUidMap(ok: bool) | NewGidMap(ok: bool) | ReportOk | ReportErr
    | SendText(count: nat) | Exit | Kill

  predicate Final(s: State) {
    s.parent.Returned? || s.parent.Aborted?
  }

  const Init := State(Forking, NotForked, AllEnds, {}, [], [], false, None, None, false, None, [], [], [])

  predicate HasHolder(s: State, e: End) {
    e in s.parentEnds || e in s.childEnds
  }

  // ------------------------------------------------------ steps of the parent

  function DoFork(s: State, ok: bool): Option<State> {
    if !s.parent.Forking? then None
    else if ok then Some(s.(parent := ClosingGoRead, child := ClosingGoWrite, childEnds := AllEnds))
    else Some(s.(parent := Returned(false), parentEnds := {}))
  }

  function DoCloseGoRead(s: State): Option<State> {
    if !s.parent.ClosingGoRead? then None
    else Some(s.(parent := ClosingResWrite, parentEnds := s.parentEnds - {GoRead}))
  }

  function DoCloseResWrite(s: State): Option<State> {
    if !s.parent.ClosingResWrite? then None
    else Some(s.(parent := Unsharing, parentEnds := s.parentEnds - {ResWrite}))
  }

  function DoUnshare(s: State, ok: bool): Option<State> {
    if !s.parent.Unsharing? then None
    else if ok then Some(s.(parent := Signalling, unshared := true))
    else Some(s.(parent := Waiting, parentEnds := s.parentEnds - {GoWrite}))
  }

  function DoSignal(s: State): Option<State> {
    if !s.parent.Signalling? then None
    else if HasHolder(s, GoRead) then Some(s.(parent := ReadingStatus, go := s.go + [1]))
    else Some(s.(parent := ReadingStatus, goFailed := true))
  }

  function DoReadStatus(cfg: Config, s: State, fault: bool): Option<State> {
    if !s.parent.ReadingStatus? then None
    else if fault then
      if cfg.readsMayFail then Some(s.(parent := Waiting)) else None
    else if s.res != [] then
      Some(s.(parent := if s.res[0] != 0 then ReadingText else Waiting,
              status := Some(s.res[0]), res := s.res[1..]))
    else if HasHolder(s, ResWrite) then None
    else Some(s.(parent := Waiting))
  }

  function DoReadText(cfg: Config, s: State, fault: bool): Option<State> {
    if !s.parent.ReadingText? then None
    else if fault then
      if cfg.readsMayFail then Some(s.(parent := Waiting)) else None
    else if s.res != [] then
      var k := Min(CHUNK, |s.res|);
      if |s.msg| > TEXT_LIMIT then Some(s.(parent := Waiting, res := s.res[k..], dropped := s.res[..k]))
      else Some(s.(res := s.res[k..], msg := s.msg + s.res[..k]))
    else if HasHolder(s, ResWrite) then None
    else Some(s.(parent := Waiting))
  }

  function DoReap(s: State): Option<State> {
    if !s.parent.Waiting? || !s.child.Zombie? then None
    else
      var outcome :=
        if !s.unshared then Returned(false)
        else if !s.goFailed && s.status == Some(0) then Returned(true)
        else Aborted;
      Some(s.(child := Reaped, parent := outcome, parentEnds := {}))
  }

  // ------------------------------------------------------ steps of the helper

  /** `_exit`: every descriptor the helper holds is closed. */
  function ExitChild(s: State): State {
    s.(child := Zombie, childEnds := {})
  }

  function DoCloseGoWrite(s: State): Option<State> {
    if !s.child.ClosingGoWrite? then None
    else Some(s.(child := ClosingResRead, childEnds := s.childEnds - {GoWrite}))
  }

  function DoCloseResRead(s: State): Option<State> {
    if !s.child.ClosingResRead? then None
    else Some(s.(child := ReadingGo, childEnds := s.childEnds - {ResRead}))
  }

  function DoReadGo(cfg: Config, s: State, fault: bool): Option<State> {
    if !s.child.ReadingGo? then None
    else if fault then
      if cfg.readsMayFail then Some(ExitChild(s)) else None
    else if s.go != [] then
      if s.go[0] == 1 then Some(s.(child := MappingUids, go := s.go[1..]))
      else Some(ExitChild(s.(go := s.go[1..])))
    else if HasHolder(s, GoWrite) then None
    else Some(ExitChild(s))
  }

  function DoNewUidMap(s: State, ok: bool): Option<State> {
    if !s.child.MappingUids? then None
    else Some(s.(uidMapped := Some(ok), child := if ok then MappingGids else ReportingErr))
  }

  function DoNewGidMap(s: State, ok: bool): Option<State> {
    if !s.child.MappingGids? then None
    else Some(s.(gidMapped := Some(ok), child := if ok then ReportingOk else ReportingErr))
  }

  function DoReportOk(cfg: Config, s: State): Option<State> {
    if !s.child.ReportingOk? then None
    else if !HasHolder(s, ResRead) then Some(s.(child := Exiting))
    else if |s.res| < cfg.capacity then
      Some(s.(child := Exiting, res := s.res + [0], sent := s.sent + [0]))
    else None
  }

  function DoReportErr(cfg: Config, s: State): Option<State> {
    if !s.child.ReportingErr? then None
    else if !HasHolder(s, ResRead) then Some(s.(child := Exiting))
    else if |s.res| < cfg.capacity then
      Some(s.(child := if cfg.text == [] then Exiting else SendingText,
              res := s.res + [1], sent := s.sent + [1]))
    else None
  }

  function DoSendText(cfg: Config, s: State, count: nat): Option<State> {
    if !s.child.SendingText? || |s.sent| == 0 then None
    else if !HasHolder(s, ResRead) then Some(s.(child := Exiting))
    else
      var at := |s.sent| - 1;
      if 0 < count && at + count <= |cfg.text| && |s.res| + count <= cfg.capacity then
        var part := cfg.text[at..at + count];
        Some(s.(child := if at + count == |cfg.text| then Exiting else SendingText,
                res := s.res + part, sent := s.sent + part))
      else None
  }

  function DoExit(s: State): Option<State> {
    if !s.child.Exiting? then None else Some(ExitChild(s))
  }

  function DoKill(cfg: Config, s: State): Option<State> {
    if !cfg.mayDie || s.child.NotForked? || s.child.Zombie? || s.child.Reaped? then None else Some(ExitChild(s))
  }

  /** One step of the system: `None` when `a` is not enabled in `s`. */
  function Step(cfg: Config, s: State, a: Action): Option<State> {
    match a
    case Fork(ok) => DoFork(s, ok)
    case CloseGoRead => DoCloseGoRead(s)
    case CloseResWrite => DoCloseResWrite(s)
    case Unshare(ok) => DoUnshare(s, ok)
    case Signal => DoSignal(s)
    case ReadStatus(fault) => DoReadStatus(cfg, s, fault)
    case ReadText(fault) => DoReadText(cfg, s, fault)
    case Reap => DoReap(s)
    case CloseGoWrite => DoCloseGoWrite(s)
    case CloseResRead => DoCloseResRead(s)
    case ReadGo(fault) => DoReadGo(cfg, s, fault)
    case NewUidMap(ok) => DoNewUidMap(s, ok)
    case NewGidMap(ok) => DoNewGidMap(s, ok)
    case ReportOk => DoReportOk(cfg, s)
    case ReportErr => DoReportErr(cfg, s)
    case SendText(count) => DoSendText(cfg, s, count)
    case Exit => DoExit(s)
    case Kill => DoKill(cfg, s)
  }

  /** The state after running `actions`, `None` when one of them was not enabled. */
  function Run(cfg: Config, s: State, actions: seq<Action>): Option<State>
    decreases |actions|
  {
    if actions == [] then Some(s)
    else
      match Step(cfg, s, actions[0])
      case None => None
      case Some(t) => Run(cfg, t, actions[1..])
  }

  ghost predicate Reaches(cfg: Config, s: State) {
    exists actions :: Run(cfg, Init, actions) == Some(s)
  }

  // ---------------------------------------------------------------- invariant

  /** The descriptors each process holds are determined by where it stands. */
  function ParentEnds(s: State): set<End> {
    match s.parent
    case Forking => AllEnds
    case ClosingGoRead => AllEnds
    case ClosingResWrite => {GoWrite, ResRead, ResWrite}
    case Waiting => if s.unshared then {GoWrite, ResRead} else {ResRead}
    case Returned(_) => {}
    case Aborted => {}
    case _ => {GoWrite, ResRead}
  }

  function ChildEnds(c: Child): set<End> {
    match c
    case NotForked => {}
    case ClosingGoWrite => AllEnds
    case ClosingResRead => {GoRead, ResRead, ResWrite}
    case Zombie => {}
    case Reaped => {}
    case _ => {GoRead, ResWrite}
  }

  /** The helper has not yet read from `go`. */
  predicate Fresh(c: Child) {
    c.ClosingGoWrite? || c.ClosingResRead? || c.ReadingGo?
  }

  predicate Gone(c: Child) {
    c.Zombie? || c.Reaped?
  }

  predicate BothMapped(s: State) {
    s.uidMapped == Some(true) && s.gidMapped == Some(true)
  }

  function StatusBytes(s: State): seq<byte> {
    if s.status.Some? then [s.status.value] else []
  }

  /** What the parent has taken out of `res`. */
  function Consumed(s: State): seq<byte> {
    StatusBytes(s) + s.msg + s.dropped
  }

  /** What the helper has written, by where it stands. */
  predicate SentMatches(cfg: Config, s: State) {
    match s.child
    case SendingText => Partial(cfg, s)
    case Exiting => Reported(cfg, s)
    case Zombie => LeftBehind(cfg, s)
    case Reaped => LeftBehind(cfg, s)
    case ReportingOk => s.sent == [] && BothMapped(s)
    case _ => s.sent == [] && !BothMapped(s)
  }

  /** A complete report: status 0 after two successes, else status 1 and the whole text. */
  predicate Reported(cfg: Config, s: State) {
    || (s.sent == [0] && BothMapped(s))
    || (s.sent == [1] + cfg.text && !BothMapped(s))
  }

  /** Status 1 and a part of the text. */
  predicate Partial(cfg: Config, s: State) {
    0 < |s.sent| <= |cfg.text| && s.sent == [1] + cfg.text[..|s.sent| - 1] && !BothMapped(s)
  }

  /** A helper that is gone reported in full, or never started mapping, or was killed at some point. */
  predicate LeftBehind(cfg: Config, s: State) {
    || Reported(cfg, s)
    || (s.sent == [] && (cfg.mayDie || (s.uidMapped.None? && s.gidMapped.None?)))
    || (cfg.mayDie && Partial(cfg, s))
  }

  /** The order the `go` byte enforces. */
  predicate GoOrder(s: State) {
    && (s.parent.Forking? ==> s.child.NotForked?)
    && (s.child.NotForked? ==> s.parent.Forking? || s.parent == Returned(false))
    && (s.parent.Forking? || s.parent.ClosingGoRead? || s.parent.ClosingResWrite? || s.parent.Unsharing? ==> !s.unshared)
    && (s.parent.Signalling? || s.parent.ReadingStatus? || s.parent.ReadingText? ==> s.unshared)
    && (s.parent.Aborted? || s.parent == Returned(true) ==> s.unshared)
    && (s.parent == Returned(false) ==> !s.unshared)
    && (s.go != [] ==> s.go == [1] && s.unshared && !s.parent.Signalling? && (Fresh(s.child) || Gone(s.child)))
    && (s.uidMapped.Some? || s.gidMapped.Some? ==> s.unshared)
    && (!s.child.NotForked? && !Fresh(s.child) && !Gone(s.child) ==>
          s.unshared && !s.parent.Signalling? && s.go == [])
    && (s.child.Reaped? ==> Final(s))
    && (Final(s) ==> s.child.Reaped? || s.child.NotForked?)
    && (Fresh(s.child) && s.unshared && !s.parent.Signalling? ==> s.go == [1])
    && (Fresh(s.child) || s.child.NotForked? || s.child.MappingUids? ==> s.uidMapped.None? && s.gidMapped.None?)
    && (s.child.MappingGids? ==> s.uidMapped == Some(true) && s.gidMapped.None?)
    && (s.gidMapped.Some? ==> s.uidMapped == Some(true))
  }

  /** What the parent knows, and that reading stopped only where the code stops. */
  predicate ParentView(cfg: Config, s: State) {
    && Consumed(s) + s.res == s.sent
    && |s.res| <= cfg.capacity
    && ParentMarks(s)
  }

  predicate ParentMarks(s: State) {
    && (s.msg != [] ==> s.status == Some(1))
    && (s.dropped != [] ==> |s.msg| > TEXT_LIMIT && !s.parent.ReadingText?)
    && (s.parent.ReadingText? ==> s.status == Some(1))
    && |s.msg| <= TEXT_LIMIT + CHUNK
    && (s.status.Some? && s.status.value != 0 ==> s.status == Some(1))
    && (s.parent.ReadingStatus? || s.parent.Signalling? || s.parent.Unsharing? ==> s.status.None?)
    && (s.parent.ClosingGoRead? || s.parent.ClosingResWrite? || s.parent.Forking? ==> s.status.None?)
    && (s.parent == Returned(true) ==> s.status == Some(0) && !s.goFailed)
    && (s.parent.Aborted? ==> s.goFailed || s.status != Some(0))
    && (s.status.Some? ==> s.unshared)
  }

  /** What holds besides when no read fails and the helper is not killed. */
  predicate Undisturbed(s: State) {
    && !s.goFailed
    && (s.parent.ClosingGoRead? || s.parent.ClosingResWrite? || s.parent.Unsharing? || s.parent.Signalling? ==>
          Fresh(s.child))
    && (s.unshared && Gone(s.child) ==> s.sent != [])
    && (s.unshared && (s.parent.Waiting? || Final(s)) ==> s.status.Some?)
  }

  /** What holds besides when no read fails. */
  predicate WithoutFaults(cfg: Config, s: State) {
    && (!cfg.mayDie ==> Undisturbed(s))
    && (s.unshared && s.parent.Waiting? ==> s.status.Some? || Gone(s.child))
    && ((s.parent.Waiting? || Final(s)) && s.status == Some(1) ==> s.dropped != [] || Gone(s.child))
    && ((s.parent.Waiting? || Final(s)) && s.status == Some(1) && s.dropped == [] ==> s.res == [])
  }

  predicate EndsMatch(s: State) {
    s.parentEnds == ParentEnds(s) && s.childEnds == ChildEnds(s.child)
  }

  ghost predicate Inv(cfg: Config, s: State) {
    && EndsMatch(s)
    && GoOrder(s)
    && SentMatches(cfg, s)
    && ParentView(cfg, s)
    && (!cfg.readsMayFail ==> WithoutFaults(cfg, s))
  }

  // One lemma per action: each step keeps the invariant.

  lemma ForkKept(cfg: Config, s: State, ok: bool)
    requires Inv(cfg, s) && DoFork(s, ok).Some?
    ensures Inv(cfg, DoFork(s, ok).value)
  {
  }

  lemma CloseGoReadKept(cfg: Config, s: State)
    requires Inv(cfg, s) && DoCloseGoRead(s).Some?
    ensures Inv(cfg, DoCloseGoRead(s).value)
  {
  }

  lemma CloseResWriteKept(cfg: Config, s: State)
    requires Inv(cfg, s) && DoCloseResWrite(s).Some?
    ensures Inv(cfg, DoCloseResWrite(s).value)
  {
  }

  lemma UnshareKept(cfg: Config, s: State, ok: bool)
    requires Inv(cfg, s) && DoUnshare(s, ok).Some?
    ensures Inv(cfg, DoUnshare(s, ok).value)
  {
  }

  lemma SignalKept(cfg: Config, s: State)
    requires Inv(cfg, s) && DoSignal(s).Some?
    ensures Inv(cfg, DoSignal(s).value)
  {
  }

  /** Moving the front of the pipe into the text keeps the stream. */
  lemma MoveFront(status: seq<byte>, msg: seq<byte>, pipe: seq<byte>, k: nat)
    requires k <= |pipe|
    ensures status + (msg + pipe[..k]) + [] + pipe[k..] == status + msg + [] + pipe
    ensures status + msg + pipe[..k] + pipe[k..] == status + msg + [] + pipe
  {
    assert pipe[..k] + pipe[k..] == pipe;
  }

  lemma FirstByte(cfg: Config, s: State)
    requires s.parent.ReadingStatus? && SentMatches(cfg, s) && ParentView(cfg, s)
    ensures s.msg == [] && s.dropped == [] && s.res == s.sent
    ensures s.res != [] ==> s.res[0] == 0 || s.res[0] == 1
  {
    assert Consumed(s) == [] && [] + s.res == s.res;
  }

  lemma ReadStatusStream(cfg: Config, s: State, fault: bool)
    requires s.msg == [] && s.dropped == [] && s.status.None? && DoReadStatus(cfg, s, fault).Some?
    ensures var t := DoReadStatus(cfg, s, fault).value; Consumed(t) + t.res == s.res
  {
    if s.res != [] { assert [s.res[0]] + [] + [] + s.res[1..] == s.res; }
  }

  lemma ReadStatusMarks(cfg: Config, s: State, fault: bool)
    requires GoOrder(s) && ParentMarks(s) && s.msg == [] && s.dropped == [] && DoReadStatus(cfg, s, fault).Some?
    requires s.res != [] ==> s.res[0] == 0 || s.res[0] == 1
    ensures ParentMarks(DoReadStatus(cfg, s, fault).value)
  {
    var t := DoReadStatus(cfg, s, fault).value;
    assert t == s.(parent := t.parent, status := t.status, res := t.res);
  }

  lemma ReadStatusView(cfg: Config, s: State, fault: bool)
    requires GoOrder(s) && SentMatches(cfg, s) && ParentView(cfg, s) && DoReadStatus(cfg, s, fault).Some?
    ensures ParentView(cfg, DoReadStatus(cfg, s, fault).value)
  {
    FirstByte(cfg, s);
    ReadStatusStream(cfg, s, fault);
    ReadStatusMarks(cfg, s, fault);
  }

  lemma ReadStatusFaultless(cfg: Config, s: State, fault: bool)
    requires EndsMatch(s) && GoOrder(s) && s.status.None? && s.res == s.sent && WithoutFaults(cfg, s)
    requires DoReadStatus(cfg, s, fault).Some? && !cfg.readsMayFail
    ensures WithoutFaults(cfg, DoReadStatus(cfg, s, fault).value)
  {
    if s.res == [] {
      assert !HasHolder(s, ResWrite);
      assert Gone(s.child);
    }
  }

  lemma ReadStatusKept(cfg: Config, s: State, fault: bool)
    requires Inv(cfg, s) && DoReadStatus(cfg, s, fault).Some?
    ensures Inv(cfg, DoReadStatus(cfg, s, fault).value)
  {
    ReadStatusView(cfg, s, fault);
    ReadStatusOrder(cfg, s, fault);
    FirstByte(cfg, s);
    if !cfg.readsMayFail { ReadStatusFaultless(cfg, s, fault); }
  }

  lemma ReadStatusOrder(cfg: Config, s: State, fault: bool)
    requires EndsMatch(s) && GoOrder(s) && SentMatches(cfg, s) && DoReadStatus(cfg, s, fault).Some?
    ensures var t := DoReadStatus(cfg, s, fault).value; EndsMatch(t) && GoOrder(t) && SentMatches(cfg, t)
  {
    var t := DoReadStatus(cfg, s, fault).value;
    assert t == s.(parent := t.parent, status := t.status, res := t.res);
  }

  lemma ReadTextStream(cfg: Config, s: State, fault: bool)
    requires s.dropped == [] && DoReadText(cfg, s, fault).Some?
    ensures var t := DoReadText(cfg, s, fault).value; Consumed(t) + t.res == Consumed(s) + s.res
  {
    if !fault && s.res != [] { MoveFront(StatusBytes(s), s.msg, s.res, Min(CHUNK, |s.res|)); }
  }

  lemma ReadTextView(cfg: Config, s: State, fault: bool)
    requires EndsMatch(s) && GoOrder(s) && ParentView(cfg, s) && DoReadText(cfg, s, fault).Some?
    requires !cfg.readsMayFail ==> WithoutFaults(cfg, s)
    ensures ParentView(cfg, DoReadText(cfg, s, fault).value)
    ensures !cfg.readsMayFail ==> WithoutFaults(cfg, DoReadText(cfg, s, fault).value)
  {
    ReadTextStream(cfg, s, fault);
  }

  lemma ReadTextKept(cfg: Config, s: State, fault: bool)
    requires Inv(cfg, s) && DoReadText(cfg, s, fault).Some?
    ensures Inv(cfg, DoReadText(cfg, s, fault).value)
  {
    ReadTextView(cfg, s, fault);
    var t := DoReadText(cfg, s, fault).value;
    assert t == s.(parent := t.parent, res := t.res, msg := t.msg, dropped := t.dropped);
  }

  /** Reaping ends the parent and the helper and moves no byte. */
  lemma ReapOrder(cfg: Config, s: State)
    requires EndsMatch(s) && GoOrder(s) && SentMatches(cfg, s) && DoReap(s).Some?
    ensures var t := DoReap(s).value; EndsMatch(t) && GoOrder(t) && SentMatches(cfg, t)
  {
    var t := DoReap(s).value;
    assert LeftBehind(cfg, s) && (LeftBehind(cfg, t) <==> LeftBehind(cfg, s));
  }

  lemma ReapMarks(s: State)
    requires GoOrder(s) && ParentMarks(s) && DoReap(s).Some?
    ensures ParentMarks(DoReap(s).value)
  {
  }

  lemma ReapKept(cfg: Config, s: State)
    requires Inv(cfg, s) && DoReap(s).Some?
    ensures Inv(cfg, DoReap(s).value)
  {
    ReapOrder(cfg, s);
    ReapMarks(s);
    var t := DoReap(s).value;
    assert Consumed(t) == Consumed(s);
    assert !cfg.readsMayFail ==> WithoutFaults(cfg, t);
  }

  lemma CloseGoWriteKept(cfg: Config, s: State)
    requires Inv(cfg, s) && DoCloseGoWrite(s).Some?
    ensures Inv(cfg, DoCloseGoWrite(s).value)
  {
  }

  lemma CloseResReadKept(cfg: Config, s: State)
    requires Inv(cfg, s) && DoCloseResRead(s).Some?
    ensures Inv(cfg, DoCloseResRead(s).value)
  {
  }

  lemma ReadGoKept(cfg: Config, s: State, fault: bool)
    requires Inv(cfg, s) && DoReadGo(cfg, s, fault).Some?
    ensures Inv(cfg, DoReadGo(cfg, s, fault).value)
  {
  }

  lemma NewUidMapKept(cfg: Config, s: State, ok: bool)
    requires Inv(cfg, s) && DoNewUidMap(s, ok).Some?
    ensures Inv(cfg, DoNewUidMap(s, ok).value)
  {
  }

  lemma NewGidMapKept(cfg: Config, s: State, ok: bool)
    requires Inv(cfg, s) && DoNewGidMap(s, ok).Some?
    ensures Inv(cfg, DoNewGidMap(s, ok).value)
  {
  }

  /** The first byte of the report: nothing was sent before, so it is all there is. */
  lemma ReportSent(cfg: Config, s: State, t: State)
    requires EndsMatch(s) && GoOrder(s) && SentMatches(cfg, s) && Consumed(s) + s.res == s.sent
    requires DoReportOk(cfg, s) == Some(t) || DoReportErr(cfg, s) == Some(t)
    ensures |t.sent| == 1 && t.res == t.sent && |t.res| <= cfg.capacity
    ensures Consumed(t) == [] && Consumed(t) + t.res == t.sent
    ensures s.status.None? && s.msg == [] && s.dropped == [] && SentMatches(cfg, t)
    ensures t == s.(child := t.child, res := t.res, sent := t.sent)
  {
    assert ResRead in s.parentEnds;
    assert s.sent == [] && Consumed(s) == [] && s.res == [];
    assert [1] + cfg.text[..0] == [1] && (cfg.text == [] ==> [1] + cfg.text == [1]);
  }

  lemma ReportKept(cfg: Config, s: State, t: State)
    requires Inv(cfg, s) && (DoReportOk(cfg, s) == Some(t) || DoReportErr(cfg, s) == Some(t))
    ensures Inv(cfg, t)
  {
    ReportSent(cfg, s, t);
    assert GoOrder(t) && EndsMatch(t) && ParentMarks(t);
    assert !cfg.readsMayFail ==> WithoutFaults(cfg, t);
  }

  /** Appending the next part of the text keeps the stream and its meaning. */
  lemma SendNext(cfg: Config, s: State, count: nat)
    requires s.child.SendingText? && SentMatches(cfg, s) && Consumed(s) + s.res == s.sent
    requires |s.sent| - 1 + count <= |cfg.text|
    ensures var at := |s.sent| - 1; var part := cfg.text[at..at + count];
      && s.sent + part == [1] + cfg.text[..at + count]
      && Consumed(s) + (s.res + part) == s.sent + part
  {
    var at := |s.sent| - 1;
    assert cfg.text[..at] + cfg.text[at..at + count] == cfg.text[..at + count];
  }

  lemma SendTextSent(cfg: Config, s: State, count: nat)
    requires EndsMatch(s) && GoOrder(s) && SentMatches(cfg, s) && Consumed(s) + s.res == s.sent
    requires |s.res| <= cfg.capacity && DoSendText(cfg, s, count).Some?
    ensures var t := DoSendText(cfg, s, count).value;
      && SentMatches(cfg, t)
      && |t.res| <= cfg.capacity
      && Consumed(t) + t.res == t.sent
  {
    assert ResRead in s.parentEnds;
    SendNext(cfg, s, count);
    assert cfg.text[..|cfg.text|] == cfg.text;
  }

  lemma SendTextKept(cfg: Config, s: State, count: nat)
    requires Inv(cfg, s) && DoSendText(cfg, s, count).Some?
    ensures Inv(cfg, DoSendText(cfg, s, count).value)
  {
    SendTextSent(cfg, s, count);
    var t := DoSendText(cfg, s, count).value;
    assert t == s.(child := t.child, res := t.res, sent := t.sent);
    assert !cfg.readsMayFail ==> WithoutFaults(cfg, t);
    assert GoOrder(t) && EndsMatch(t);
  }

  lemma ExitKept(cfg: Config, s: State)
    requires Inv(cfg, s) && DoExit(s).Some?
    ensures Inv(cfg, DoExit(s).value)
  {
  }

  lemma KillKept(cfg: Config, s: State)
    requires Inv(cfg, s) && DoKill(cfg, s).Some?
    ensures Inv(cfg, DoKill(cfg, s).value)
  {
  }

  lemma StepKeepsInv(cfg: Config, s: State, a: Action)
    requires Inv(cfg, s) && Step(cfg, s, a).Some?
    ensures Inv(cfg, Step(cfg, s, a).value)
  {
    match a
    case Fork(ok) => ForkKept(cfg, s, ok);
    case CloseGoRead => CloseGoReadKept(cfg, s);
    case CloseResWrite => CloseResWriteKept(cfg, s);
    case Unshare(ok) => UnshareKept(cfg, s, ok);
    case Signal => SignalKept(cfg, s);
    case ReadStatus(fault) => ReadStatusKept(cfg, s, fault);
    case ReadText(fault) => ReadTextKept(cfg, s, fault);
    case Reap => ReapKept(cfg, s);
    case CloseGoWrite => CloseGoWriteKept(cfg, s);
    case CloseResRead => CloseResReadKept(cfg, s);
    case ReadGo(fault) => ReadGoKept(cfg, s, fault);
    case NewUidMap(ok) => NewUidMapKept(cfg, s, ok);
    case NewGidMap(ok) => NewGidMapKept(cfg, s, ok);
    case ReportOk => ReportKept(cfg, s, Step(cfg, s, a).value);
    case ReportErr => ReportKept(cfg, s, Step(cfg, s, a).value);
    case SendText(count) => SendTextKept(cfg, s, count);
    case Exit => ExitKept(cfg, s);
    case Kill => KillKept(cfg, s);
  }

  lemma {:induction false} RunKeepsInv(cfg: Config, s: State, actions: seq<Action>)
    requires Inv(cfg, s) && Run(cfg, s, actions).Some?
    ensures Inv(cfg, Run(cfg, s, actions).value)
    decreases |actions|
  {
    if actions != [] {
      StepKeepsInv(cfg, s, actions[0]);
      RunKeepsInv(cfg, Step(cfg, s, actions[0]).value, actions[1..]);
    }
  }

  lemma ReachedInv(cfg: Config, actions: seq<Action>, s: State)
    requires Run(cfg, Init, actions) == Some(s)
    ensures Inv(cfg, s)
  {
    assert Consumed(Init) == [];
    RunKeepsInv(cfg, Init, actions);
  }

  // ------------------------------------------------------------------- safety

  /** Some helper is running or has run. */
  predicate HelperStarted(s: State) {
    || s.uidMapped.Some? || s.gidMapped.Some?
    || !(s.child.NotForked? || Fresh(s.child) || Gone(s.child))
  }

  /** The outcome of `apply_subordinate_maps` in every interleaving. */
  lemma OutcomeIsSafe(cfg: Config, actions: seq<Action>, s: State)
    requires Run(cfg, Init, actions) == Some(s)
    ensures HelperStarted(s) ==> s.unshared
    ensures s.gidMapped.Some? ==> s.uidMapped == Some(true)
    ensures s.parent == Returned(true) ==> s.unshared && BothMapped(s) && s.child.Reaped?
    ensures s.parent == Returned(false) ==> !s.unshared && !HelperStarted(s) && (s.child.Reaped? || s.child.NotForked?)
    ensures s.parent.Aborted? ==> s.unshared && s.child.Reaped?
    ensures s.unshared && Final(s) && !s.parent.Aborted? ==> BothMapped(s)
    ensures !cfg.readsMayFail && !cfg.mayDie && Final(s) ==> (s.parent == Returned(true) <==> BothMapped(s))
  {
    ReachedInv(cfg, actions, s);
    if s.status.Some? {
      assert Consumed(s)[0] == s.status.value == s.sent[0];
    }
  }

  /** One read takes what there is, up to 512 bytes, and keeps it until more than 8192 are kept. */
  lemma ReadTakes(cfg: Config, s: State)
    requires s.parent.ReadingText? && s.res != []
    ensures DoReadText(cfg, s, false).Some?
    ensures var t := DoReadText(cfg, s, false).value;
      var k := if |s.res| <= 512 then |s.res| else 512;
      && t.res == s.res[k..]
      && if |s.msg| <= 8192 then t.msg == s.msg + s.res[..k] && t.parent == s.parent
         else t.msg == s.msg && t.parent.Waiting?
  {
  }

  /** After status 1, what left the helper besides the status byte is the text, so far or whole. */
  lemma SentText(cfg: Config, s: State)
    requires Inv(cfg, s) && s.status == Some(1)
    ensures s.msg + s.dropped + s.res <= cfg.text
    ensures Gone(s.child) && !cfg.mayDie ==> s.msg + s.dropped + s.res == cfg.text
  {
    var text := s.msg + s.dropped + s.res;
    assert Consumed(s) + s.res == [1] + text;
    assert s.sent == [1] + text && s.sent[0] == 1 && s.sent[1..] == text;
  }

  /** The error text the parent prints is what the helper sent, whole when it is short enough. */
  lemma ReportedTextIsGenuine(cfg: Config, actions: seq<Action>, s: State)
    requires Run(cfg, Init, actions) == Some(s)
    ensures s.msg <= cfg.text && |s.msg| <= 8192 + 512
    ensures !cfg.readsMayFail && !cfg.mayDie && s.parent.Aborted? && |cfg.text| <= 8192 ==> s.msg == cfg.text
  {
    ReachedInv(cfg, actions, s);
    if s.status == Some(1) {
      SentText(cfg, s);
      assert s.msg <= s.msg + s.dropped + s.res;
    }
  }

  lemma {:induction false} UnsharedByAction(cfg: Config, s: State, actions: seq<Action>)
    requires Run(cfg, s, actions).Some? && !s.unshared && Run(cfg, s, actions).value.unshared
    ensures Unshare(true) in actions
    decreases |actions|
  {
    if actions[0] != Unshare(true) {
      UnsharedByAction(cfg, Step(cfg, s, actions[0]).value, actions[1..]);
    }
  }

  lemma {:induction false} RunPrefix(cfg: Config, s: State, actions: seq<Action>, n: nat)
    requires Run(cfg, s, actions).Some? && n <= |actions|
    ensures Run(cfg, s, actions[..n]).Some?
    ensures n < |actions| ==> Step(cfg, Run(cfg, s, actions[..n]).value, actions[n]).Some?
    decreases n
  {
    if n > 0 {
      RunPrefix(cfg, Step(cfg, s, actions[0]).value, actions[1..], n - 1);
      assert actions[..n][1..] == actions[1..][..n - 1];
    }
  }

  /** In every run, each start of an id helper comes after the unshare succeeded. */
  lemma HelpersRunAfterUnshare(cfg: Config, actions: seq<Action>, i: nat)
    requires Run(cfg, Init, actions).Some? && i < |actions|
    requires actions[i].NewUidMap? || actions[i].NewGidMap?
    ensures exists j :: 0 <= j < i && actions[j] == Unshare(true)
  {
    RunPrefix(cfg, Init, actions, i);
    var s := Run(cfg, Init, actions[..i]).value;
    OutcomeIsSafe(cfg, actions[..i], s);
    UnsharedByAction(cfg, Init, actions[..i]);
    var j :| 0 <= j < i && actions[..i][j] == Unshare(true);
    assert actions[j] == Unshare(true);
  }

  // -------------------------------------------------------------- termination

  function ParentRank(p: Parent): nat {
    match p
    case Forking => 20
    case ClosingGoRead => 7
    case ClosingResWrite => 6
    case Unsharing => 5
    case Signalling => 4
    case ReadingStatus => 3
    case ReadingText => 2
    case Waiting => 1
    case _ => 0
  }

  function ChildRank(c: Child): nat {
    match c
    case ClosingGoWrite => 9
    case ClosingResRead => 8
    case ReadingGo => 7
    case MappingUids => 6
    case MappingGids => 5
    case ReportingOk => 4
    case ReportingErr => 4
    case SendingText => 3
    case Exiting => 2
    case Zombie => 1
    case _ => 0
  }

  /** Text still to be written. */
  function Unsent(cfg: Config, s: State): nat {
    if |s.sent| > |cfg.text| then 0 else |cfg.text| + 1 - |s.sent|
  }

  function Measure(cfg: Config, s: State): nat {
    2 * ParentRank(s.parent) + 2 * ChildRank(s.child) + 2 * Unsent(cfg, s) + |s.res|
  }

  predicate IsParentAction(a: Action) {
    a.Fork? || a.CloseGoRead? || a.CloseResWrite? || a.Unshare? || a.Signal? || a.ReadStatus? || a.ReadText? || a.Reap?
  }

  lemma ParentDecreases(cfg: Config, s: State, a: Action)
    requires IsParentAction(a) && Step(cfg, s, a).Some?
    ensures Measure(cfg, Step(cfg, s, a).value) < Measure(cfg, s)
  {
  }

  lemma ChildDecreases(cfg: Config, s: State, a: Action)
    requires !IsParentAction(a) && Step(cfg, s, a).Some?
    ensures Measure(cfg, Step(cfg, s, a).value) < Measure(cfg, s)
  {
  }

  lemma StepDecreases(cfg: Config, s: State, a: Action)
    requires Step(cfg, s, a).Some?
    ensures Measure(cfg, Step(cfg, s, a).value) < Measure(cfg, s)
  {
    if IsParentAction(a) { ParentDecreases(cfg, s, a); } else { ChildDecreases(cfg, s, a); }
  }

  /** Every run is finite: its length is bounded by the error text alone. */
  lemma {:induction false} RunsAreBounded(cfg: Config, s: State, actions: seq<Action>)
    requires Run(cfg, s, actions).Some?
    ensures |actions| + Measure(cfg, Run(cfg, s, actions).value) <= Measure(cfg, s)
    ensures s == Init ==> |actions| <= 42 + 2 * |cfg.text|
    decreases |actions|
  {
    if actions != [] {
      StepDecreases(cfg, s, actions[0]);
      RunsAreBounded(cfg, Step(cfg, s, actions[0]).value, actions[1..]);
    }
  }

  // ----------------------------------------------------------------- deadlock

  /** The longest error text for which no interleaving can block for ever. */
  function TextBound(cfg: Config): int {
    if cfg.readsMayFail then cfg.capacity - 1 else cfg.capacity + TEXT_LIMIT + 2
  }

  /** Nothing can happen any more, unless the helper is killed. */
  ghost predicate Stuck(cfg: Config, s: State) {
    !Final(s) && forall a :: a != Kill ==> Step(cfg, s, a).None?
  }

  /** An action that is enabled, by what the helper and then the parent can do. */
  lemma ChildCanMove(cfg: Config, s: State) returns (a: Action)
    requires Inv(cfg, s) && !Gone(s.child) && !s.child.NotForked? && 0 < cfg.capacity
    requires s.child.ReadingGo? ==> s.go != [] || !HasHolder(s, GoWrite)
    requires s.child.SendingText? ==> |s.res| < cfg.capacity
    requires s.child.ReportingOk? || s.child.ReportingErr? ==> s.res == []
    ensures a != Kill && Step(cfg, s, a).Some?
  {
    match s.child
    case ClosingGoWrite => a := CloseGoWrite;
    case ClosingResRead => a := CloseResRead;
    case ReadingGo => a := ReadGo(false);
    case MappingUids => a := NewUidMap(true);
    case MappingGids => a := NewGidMap(true);
    case ReportingOk => a := ReportOk;
    case ReportingErr => a := ReportErr;
    case SendingText => a := SendText(1);
    case Exiting => a := Exit;
  }

  /** A full pipe that nobody will read again needs more text than the bound. */
  lemma FullPipeIsRead(cfg: Config, s: State)
    requires Inv(cfg, s) && s.parent.Waiting? && s.child.SendingText? && |cfg.text| <= TextBound(cfg)
    ensures |s.res| < cfg.capacity
  {
    assert |Consumed(s)| + |s.res| == |s.sent| <= |cfg.text|;
    if s.status.Some? {
      assert Consumed(s)[0] == s.status.value == s.sent[0] == 1;
    }
  }

  lemma Progress(cfg: Config, s: State) returns (a: Action)
    requires Inv(cfg, s) && !Final(s) && 0 < cfg.capacity && |cfg.text| <= TextBound(cfg)
    ensures a != Kill && Step(cfg, s, a).Some?
  {
    match s.parent
    case Forking => a := Fork(true);
    case ClosingGoRead => a := CloseGoRead;
    case ClosingResWrite => a := CloseResWrite;
    case Unsharing => a := Unshare(true);
    case Signalling => a := Signal;
    case ReadingStatus =>
      if s.res != [] || Gone(s.child) { a := ReadStatus(false); } else { a := ChildCanMove(cfg, s); }
    case ReadingText =>
      if s.res != [] || Gone(s.child) { a := ReadText(false); } else { a := ChildCanMove(cfg, s); }
    case Waiting =>
      if s.child.Zombie? {
        a := Reap;
      } else {
        if s.child.SendingText? { FullPipeIsRead(cfg, s); }
        a := ChildCanMove(cfg, s);
      }
  }

  lemma {:induction false} RunConcat(cfg: Config, s: State, first: seq<Action>, second: seq<Action>)
    requires Run(cfg, s, first).Some?
    ensures Run(cfg, s, first + second) == Run(cfg, Run(cfg, s, first).value, second)
    decreases |first|
  {
    if first == [] {
      assert first + second == second;
    } else {
      assert (first + second)[1..] == first[1..] + second;
      RunConcat(cfg, Step(cfg, s, first[0]).value, first[1..], second);
    }
  }

  lemma Extend(cfg: Config, before: seq<Action>, s: State, a: Action) returns (actions: seq<Action>, t: State)
    requires Run(cfg, Init, before) == Some(s) && Step(cfg, s, a).Some?
    ensures t == Step(cfg, s, a).value && Run(cfg, Init, actions) == Some(t)
  {
    actions, t := before + [a], Step(cfg, s, a).value;
    RunConcat(cfg, Init, before, [a]);
    assert Run(cfg, t, []) == Some(t);
    assert [a][1..] == [];
  }

  /** The state in which `taken` bytes of text went through the pipe and the parent still reads. */
  function Draining(cfg: Config, taken: nat): State
    requires taken <= |cfg.text|
  {
    State(ReadingText, SendingText, {GoWrite, ResRead}, {GoRead, ResWrite}, [], [], true,
          Some(false), None, false, Some(1), cfg.text[..taken], [], [1] + cfg.text[..taken])
  }

  /** The helper failed and has written its status byte; the parent is about to read it. */
  function StatusWritten(): State {
    State(ReadingStatus, SendingText, {GoWrite, ResRead}, {GoRead, ResWrite}, [], [1], true,
          Some(false), None, false, None, [], [], [1])
  }

  /** The parent has unshared and signalled before the helper did anything. */
  function Signalled(): State {
    State(ReadingStatus, ClosingGoWrite, {GoWrite, ResRead}, AllEnds, [1], [], true,
          None, None, false, None, [], [], [])
  }

  lemma ReachSignalled(cfg: Config) returns (actions: seq<Action>)
    ensures Run(cfg, Init, actions) == Some(Signalled())
  {
    var s := Init;
    actions := [];
    actions, s := Extend(cfg, actions, s, Fork(true));
    actions, s := Extend(cfg, actions, s, CloseGoRead);
    actions, s := Extend(cfg, actions, s, CloseResWrite);
    actions, s := Extend(cfg, actions, s, Unshare(true));
    actions, s := Extend(cfg, actions, s, Signal);
    assert s.parentEnds == {GoWrite, ResRead} && s.go == [1];
    assert s == Signalled();
  }

  lemma ReachStatusWritten(cfg: Config) returns (actions: seq<Action>)
    requires 0 < cfg.capacity && cfg.text != []
    ensures Run(cfg, Init, actions) == Some(StatusWritten())
  {
    actions := ReachSignalled(cfg);
    var s := Signalled();
    actions, s := Extend(cfg, actions, s, CloseGoWrite);
    actions, s := Extend(cfg, actions, s, CloseResRead);
    actions, s := Extend(cfg, actions, s, ReadGo(false));
    actions, s := Extend(cfg, actions, s, NewUidMap(false));
    assert s.childEnds == {GoRead, ResWrite} && s.go == [];
    assert s == StatusWritten().(child := ReportingErr, res := [], sent := []);
    actions, s := Extend(cfg, actions, s, ReportErr);
    assert s == StatusWritten();
  }

  /** Byte by byte, the parent can take any number of bytes up to one past the limit. */
  lemma {:induction false} ReachDraining(cfg: Config, taken: nat) returns (actions: seq<Action>)
    requires 0 < cfg.capacity && taken < |cfg.text| && taken <= TEXT_LIMIT + 1
    ensures Run(cfg, Init, actions) == Some(Draining(cfg, taken))
  {
    if taken == 0 {
      actions := ReachStatusWritten(cfg);
      var s;
      actions, s := Extend(cfg, actions, StatusWritten(), ReadStatus(false));
      assert s == Draining(cfg, 0);
    } else {
      actions := ReachDraining(cfg, taken - 1);
      var s := Draining(cfg, taken - 1);
      actions, s := Extend(cfg, actions, s, SendText(1));
      assert s.res == [cfg.text[taken - 1]];
      actions, s := Extend(cfg, actions, s, ReadText(false));
      assert cfg.text[..taken - 1] + [cfg.text[taken - 1]] == cfg.text[..taken];
      assert s == Draining(cfg, taken);
    }
  }

  /** The parent has given up reading while text is left to send. */
  lemma ReachGivenUp(cfg: Config) returns (actions: seq<Action>, s: State)
    requires 0 < cfg.capacity && |cfg.text| > TextBound(cfg)
    ensures Run(cfg, Init, actions) == Some(s)
    ensures s.parent.Waiting? && s.child.SendingText? && s.unshared && ResRead in s.parentEnds
    ensures 0 < |s.sent| && |s.res| <= cfg.capacity
    ensures |s.sent| - 1 + (cfg.capacity - |s.res|) < |cfg.text|
  {
    if cfg.readsMayFail {
      actions := ReachStatusWritten(cfg);
      s := StatusWritten();
      actions, s := Extend(cfg, actions, s, ReadStatus(true));
    } else {
      actions := ReachDraining(cfg, TEXT_LIMIT + 1);
      s := Draining(cfg, TEXT_LIMIT + 1);
      actions, s := Extend(cfg, actions, s, SendText(1));
      actions, s := Extend(cfg, actions, s, ReadText(false));
    }
  }

  /** Beyond the bound the system can block: the parent waits for a helper that waits for the parent. */
  lemma LongTextCanBlock(cfg: Config) returns (actions: seq<Action>, s: State)
    requires 0 < cfg.capacity && |cfg.text| > TextBound(cfg)
    ensures Run(cfg, Init, actions) == Some(s) && Stuck(cfg, s)
    ensures s.parent.Waiting? && s.child.SendingText? && s.unshared
  {
    actions, s := ReachGivenUp(cfg);
    if |s.res| < cfg.capacity {
      actions, s := Extend(cfg, actions, s, SendText(cfg.capacity - |s.res|));
    }
  }

  /** No interleaving blocks for ever exactly when the error text is within the bound. */
  lemma DeadlockFreeIffTextBounded(cfg: Config)
    requires 0 < cfg.capacity
    ensures (forall s :: Reaches(cfg, s) ==> !Stuck(cfg, s)) <==>
            |cfg.text| <= if cfg.readsMayFail then cfg.capacity - 1 else cfg.capacity + 8194
  {
    if |cfg.text| <= TextBound(cfg) {
      forall s | Reaches(cfg, s) ensures !Stuck(cfg, s) {
        var actions :| Run(cfg, Init, actions) == Some(s);
        ReachedInv(cfg, actions, s);
        if !Final(s) { var a := Progress(cfg, s); }
      }
    } else {
      var actions, s := LongTextCanBlock(cfg);
      assert Reaches(cfg, s);
    }
  }
}
