/** The authority session: the lifecycle fence of one owner process. Every critical section
    is a function on the fence's value; the class runs the same sections in place, and
    SessionRuns interleaves them. */
module Session {
  import opened Wrappers
  import Sets

  datatype State = Starting | Ready | Draining | Terminal

  datatype Error = Illegal | AdmissionClosed | StaleInstance

  /** The fields guarded by the session's condition. Revokers are numbered by registration. */
  datatype Fence = Fence(state: State, active: int, revokers: nat, success: set<nat>,
                         started: bool, running: bool, complete: bool)

  const FRESH := Fence(Starting, 0, 0, {}, false, false, false)

  /** The first `n` registration numbers. */
  function UpTo(n: nat): (s: set<nat>)
    ensures forall i: nat :: i in s <==> i < n
    ensures |s| == n
  {
    if n == 0 then {} else UpTo(n - 1) + {n - 1}
  }

  // ---- critical sections --------------------------------------------------------------

  function Activate(f: Fence): Result<Fence, Error> {
    if f.started || f.state != Starting then Err(Illegal) else Ok(f.(state := Ready))
  }

  function BeginDrain(f: Fence): Result<Fence, Error> {
    if f.state != Ready then Err(Illegal) else Ok(f.(state := Draining))
  }

  function Register(f: Fence): Result<Fence, Error> {
    if f.complete || f.running then Err(Illegal) else Ok(f.(revokers := f.revokers + 1))
  }

  function Admit(f: Fence, instance: nat, expected: Option<nat>): Result<Fence, Error> {
    if f.state != Ready then Err(AdmissionClosed)
    else if expected.Some? && expected.value != instance then Err(StaleInstance)
    else Ok(f.(active := f.active + 1))
  }

  function Leave(f: Fence): Fence {
    f.(active := f.active - 1)
  }

  /** The obligations still open, in registration order, from index `i` on. */
  function Pending(f: Fence, i: nat): seq<nat>
    decreases f.revokers - i
  {
    if i >= f.revokers then []
    else if i in f.success then Pending(f, i + 1)
    else [i] + Pending(f, i + 1)
  }

  /** How the top of the revocation loop is left. */
  datatype Entry = Returned | Joining | Refused | Pass(pending: seq<nat>)

  function EnterPass(f: Fence): (Fence, Entry) {
    if f.complete then (f, Returned)
    else if f.running then (f, Joining)
    else if f.state == Ready then (f, Refused)
    else if f.state == Terminal then (f.(complete := true), Returned)
    else (f.(started := true, running := true), Pass(Pending(f, 0)))
  }

  function Record(f: Fence, i: nat): Fence {
    f.(success := f.success + {i})
  }

  /** The `finally` of a pass. */
  function FinishPass(f: Fence): Fence {
    f.(running := false, complete := f.complete || |f.success| >= f.revokers)
  }

  /** The second critical section of terminalize() and abort_from_starting(). */
  function EnterTerminal(f: Fence, from: State): Result<Fence, Error> {
    if f.state == Terminal then Ok(f)
    else if f.state != from then Err(Illegal)
    else Ok(f.(state := Terminal))
  }

  // ---- one caller alone ----------------------------------------------------------------

  /** Runs the pending revokers in order until one raises. */
  function RunPending(f: Fence, pending: seq<nat>, failing: set<nat>): (Fence, bool)
    decreases |pending|
  {
    if pending == [] then (f, false)
    else if pending[0] in failing then (f, true)
    else RunPending(Record(f, pending[0]), pending[1..], failing)
  }

  datatype RevokeResult = Revoked | RevokeRefused | RevokerRaised

  /** revoke_authority() with no other caller in it. */
  function Revoke(f: Fence, failing: set<nat>): (Fence, RevokeResult) {
    var (g, entry) := EnterPass(f);
    match entry
    case Returned => (g, Revoked)
    case Joining => (g, Revoked)
    case Refused => (g, RevokeRefused)
    case Pass(pending) =>
      var (h, raised) := RunPending(g, pending, failing);
      (FinishPass(h), if raised then RevokerRaised else Revoked)
  }

  lemma {:induction false} PendingExact(f: Fence, i: nat)
    ensures forall k: nat :: k in Pending(f, i) <==> i <= k < f.revokers && k !in f.success
    ensures forall a | 0 <= a < |Pending(f, i)| :: Pending(f, i)[a] >= i
    ensures forall a, b | 0 <= a < b < |Pending(f, i)| :: Pending(f, i)[a] < Pending(f, i)[b]
    decreases f.revokers - i
  {
    if i < f.revokers {
      PendingExact(f, i + 1);
    }
  }

  lemma FullIsUpTo(s: set<nat>, n: nat)
    requires s <= UpTo(n)
    ensures |s| >= n <==> s == UpTo(n)
  {
    if |s| >= n && s != UpTo(n) {
      assert exists x :: x in UpTo(n) && x !in s;
      var x :| x in UpTo(n) && x !in s;
      assert |s + {x}| == |s| + 1;
      Sets.SubsetCard(s + {x}, UpTo(n));
    }
  }

  lemma {:induction false} RunPendingExact(f: Fence, pending: seq<nat>, failing: set<nat>)
    ensures var (g, raised) := RunPending(f, pending, failing);
            && g == f.(success := g.success) && f.success <= g.success
            && (raised <==> exists k :: k in pending && k in failing)
            && (!raised ==> g.success == f.success + set k | k in pending)
            && (forall k | k in g.success - f.success :: k in pending && k !in failing)
    decreases |pending|
  {
    if pending != [] {
      if pending[0] !in failing {
        var g := RunPending(f, pending, failing).0;
        RunPendingExact(Record(f, pending[0]), pending[1..], failing);
        forall k | k in g.success - f.success
          ensures k in pending && k !in failing
        {
          if k != pending[0] { assert k in g.success - Record(f, pending[0]).success && k in pending[1..]; }
        }
      }
    }
  }

  /** What is pending depends only on what is registered and what has succeeded. */
  lemma {:induction false} PendingSame(f: Fence, g: Fence, i: nat)
    requires f.revokers == g.revokers && f.success == g.success
    ensures Pending(f, i) == Pending(g, i)
    decreases f.revokers - i
  {
    if i < f.revokers { PendingSame(f, g, i + 1); }
  }

  ghost predicate Sound(f: Fence) {
    && f.success <= UpTo(f.revokers)
    && (f.state == Ready ==> !f.started)
    && (f.running ==> f.started)
    && (f.success != {} ==> f.started)
    && (f.complete ==> f.success == UpTo(f.revokers) && !f.running)
    && (f.state == Terminal ==> f.complete)
  }

  /** One caller alone: revocation is refused exactly on a READY session that has not been
      revoked, with no effect; otherwise it completes exactly when no open obligation
      raises, and what had succeeded stays. */
  lemma RevokeExact(f: Fence, failing: set<nat>)
    requires Sound(f) && !f.running
    ensures var (g, r) := Revoke(f, failing);
            && Sound(g) && !g.running && g.state == f.state && g.active == f.active && g.revokers == f.revokers
            && f.success <= g.success
            && (r == RevokeRefused <==> f.state == Ready && !f.complete) && (r == RevokeRefused ==> g == f)
            && (r == Revoked <==> g.complete)
            && (r == RevokerRaised <==>
                  f.state != Ready && !f.complete && exists k :: k in failing && k < f.revokers && k !in f.success)
  {
    var (g, entry) := EnterPass(f);
    if entry.Pass? {
      PendingExact(f, 0);
      RunPendingExact(g, entry.pending, failing);
      var (h, raised) := RunPending(g, entry.pending, failing);
      FullIsUpTo(h.success, h.revokers);
      if !raised {
        assert h.success == UpTo(f.revokers);
      } else {
        var k :| k in entry.pending && k in failing;
        FailedStaysOpen(g, entry.pending, failing, k);
        assert k in UpTo(f.revokers) && k !in h.success;
      }
    }
  }

  /** A pass in which nothing raises leaves revocation complete. */
  lemma QuietPassCompletes(f: Fence, failing: set<nat>)
    requires f.success <= UpTo(f.revokers) && EnterPass(f).1.Pass? && Revoke(f, failing).1 == Revoked
    ensures Revoke(f, failing).0.complete
  {
    var (g, entry) := EnterPass(f);
    PendingExact(f, 0);
    RunPendingExact(g, entry.pending, failing);
    assert RunPending(g, entry.pending, failing).0.success == UpTo(f.revokers);
  }

  lemma {:induction false} FailedStaysOpen(f: Fence, pending: seq<nat>, failing: set<nat>, k: nat)
    requires k in failing && k !in f.success
    ensures k !in RunPending(f, pending, failing).0.success
    decreases |pending|
  {
    if pending != [] && pending[0] !in failing {
      FailedStaysOpen(Record(f, pending[0]), pending[1..], failing, k);
    }
  }
}
