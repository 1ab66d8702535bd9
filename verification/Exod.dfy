/** The execution limb: single-use grants, the order of its checks, and the recorder of its results. */
module Exod {
  import opened Prelude

  // ---- grants ----------------------------------------------------------------------------------

  datatype GrantBody = GrantBody(
    notBefore: Option<int>, expires: Option<int>, runId: Option<string>, planSha: Option<string>,
    workspace: Option<string>, argv: Option<seq<string>>, nonce: string, capabilities: set<string>)

  /** signed and typed: the issuer's signature verifies, and the payload is a grant. An absent nonce is the empty string. */
  datatype Grant = Grant(signed: bool, typed: bool, body: GrantBody)

  datatype GrantReason =
    | BadSignature | WrongType | MalformedWindow | NotYetValid | Expired
    | WrongRun | WrongPlan | WrongWorkspace | WrongArgv | MalformedNonce | Replay

  /** What the caller expects of a grant; None expects nothing. */
  datatype Expected = Expected(runId: Option<string>, planSha: Option<string>, workspace: Option<string>, argv: Option<seq<string>>)

  const SKEW := 60

  /** The first check that fails; the nonce cache is not consulted. */
  function GrantRefusal(g: Grant, now: int, want: Expected): Option<GrantReason> {
    var b := g.body;
    if !g.signed then Some(BadSignature)
    else if !g.typed then Some(WrongType)
    else if b.notBefore.None? || b.expires.None? then Some(MalformedWindow)
    else if now < b.notBefore.value - SKEW then Some(NotYetValid)
    else if now > b.expires.value + SKEW then Some(Expired)
    else if want.runId.Some? && b.runId != want.runId then Some(WrongRun)
    else if want.planSha.Some? && b.planSha != want.planSha then Some(WrongPlan)
    else if want.workspace.Some? && b.workspace.Some? && b.workspace != want.workspace then Some(WrongWorkspace)
    else if want.argv.Some? && b.argv.Some? && b.argv != want.argv then Some(WrongArgv)
    else if b.nonce == "" then Some(MalformedNonce)
    else None
  }

  class NonceCache {
    var seen: set<(string, string)>

    constructor ()
      ensures seen == {}
    {
      seen := {};
    }

    /** Accepts a pair once. */
    method Spend(issuer: string, nonce: string) returns (first: bool)
      modifies this
      ensures first <==> (issuer, nonce) !in old(seen)
      ensures seen == old(seen) + {(issuer, nonce)}
    {
      if (issuer, nonce) in seen {
        first := false;
        assert seen == seen + {(issuer, nonce)};
      } else {
        seen := seen + {(issuer, nonce)};
        first := true;
      }
    }
  }

  /** A grant that fails any other check is not consumed. */
  method VerifyGrant(cache: NonceCache, issuer: string, g: Grant, now: int, want: Expected) returns (reason: Option<GrantReason>)
    modifies cache
    ensures reason == match GrantRefusal(g, now, want)
                      case Some(why) => Some(why)
                      case None => if (issuer, g.body.nonce) in old(cache.seen) then Some(Replay) else None
    ensures cache.seen == if GrantRefusal(g, now, want).Some? then old(cache.seen) else old(cache.seen) + {(issuer, g.body.nonce)}
  {
    reason := GrantRefusal(g, now, want);
    if reason.None? {
      var first := cache.Spend(issuer, g.body.nonce);
      if !first {
        reason := Some(Replay);
      }
    }
  }

  // ---- one request -----------------------------------------------------------------------------

  /** What the access check says of a request before it looks at spent proofs: deny, pass, or pass with this proof. */
  datatype Access = Denied | Passed | WithProof(proof: string)

  /** What the confinement backend does when it is started. */
  datatype Runner = Fails | Exits(code: int)

  /** The fields after grant stand for checks outside this model: each is what that check would answer. */
  datatype Request = Request(
    want: Expected, grant: Grant, access: Access, closureMatches: bool, mountMatches: bool, secretsResolve: bool, runner: Runner)

  datatype Tag =
    | BadGrant(reason: GrantReason) | AccessDenied | NoCapability | ClosureMismatch | GrantReplay
    | MountMismatch | NoSecrets | SandboxUnavailable

  datatype Result = RefusedWith(tag: Tag) | Ran(code: int) | Raised

  /** The limb's memory, and the nonces of the grants it started the runner for, in order. */
  datatype Memory = Memory(spent: set<string>, proofs: set<string>, fired: seq<string>)

  predicate AccessPasses(m: Memory, r: Request) {
    r.access.Passed? || (r.access.WithProof? && r.access.proof !in m.proofs)
  }

  /** A proof is spent when it is looked at, whatever happens to the request afterwards. */
  function AfterAccess(m: Memory, r: Request): Memory {
    if r.access.WithProof? then m.(proofs := m.proofs + {r.access.proof}) else m
  }

  /** Why a request is refused before its grant is spent. */
  function EarlyRefusal(m: Memory, r: Request, now: int, strict: bool): Option<Tag> {
    match GrantRefusal(r.grant, now, r.want)
    case Some(reason) => Some(BadGrant(reason))
    case None =>
      if !AccessPasses(m, r) && strict then Some(AccessDenied)
      else if "run" !in r.grant.body.capabilities then Some(NoCapability)
      else if !r.closureMatches then Some(ClosureMismatch)
      else None
  }

  /** What happens once the grant is spent. */
  function LateResult(r: Request): Result {
    if r.want.workspace.None? then Raised
    else if !r.mountMatches then RefusedWith(MountMismatch)
    else if !r.secretsResolve then RefusedWith(NoSecrets)
    else if r.want.argv.None? || r.runner.Fails? then RefusedWith(SandboxUnavailable)
    else Ran(r.runner.code)
  }

  predicate Starts(r: Request) {
    r.want.workspace.Some? && r.mountMatches && r.secretsResolve && r.want.argv.Some?
  }

  function Handled(m: Memory, r: Request, now: int, strict: bool): (Memory, Result) {
    var nonce := r.grant.body.nonce;
    match EarlyRefusal(m, r, now, strict)
    case Some(tag) => (if tag.BadGrant? then m else AfterAccess(m, r), RefusedWith(tag))
    case None =>
      var m1 := AfterAccess(m, r);
      if nonce in m1.spent then (m1, RefusedWith(GrantReplay))
      else
        var m2 := m1.(spent := m1.spent + {nonce});
        (if Starts(r) then m2.(fired := m2.fired + [nonce]) else m2, LateResult(r))
  }

  class Exod {
    var spent: set<string>
    var proofs: set<string>
    ghost var fired: seq<string>
    const strict: bool

    constructor (strict: bool)
      ensures Value() == Memory({}, {}, []) && this.strict == strict
    {
      spent, proofs, fired, this.strict := {}, {}, [], strict;
    }

    ghost function Value(): Memory
      reads this
    {
      Memory(spent, proofs, fired)
    }

    /** spend of a token proof. */
    method CheckAccess(r: Request) returns (passes: bool)
      modifies this`proofs
      ensures passes <==> AccessPasses(old(Value()), r)
      ensures Value() == AfterAccess(old(Value()), r)
    {
      match r.access {
        case Denied => passes := false;
        case Passed => passes := true;
        case WithProof(proof) =>
          passes := proof !in proofs;
          proofs := proofs + {proof};
      }
    }

    method RunStep(r: Request, now: int) returns (result: Result)
      modifies this
      ensures (Value(), result) == Handled(old(Value()), r, now, strict)
    {
      var reason := GrantRefusal(r.grant, now, r.want);
      if reason.Some? {
        return RefusedWith(BadGrant(reason.value));
      }
      var passes := CheckAccess(r);
      if !passes && strict {
        return RefusedWith(AccessDenied);
      }
      if "run" !in r.grant.body.capabilities {
        return RefusedWith(NoCapability);
      }
      if !r.closureMatches {
        return RefusedWith(ClosureMismatch);
      }
      var nonce := r.grant.body.nonce;
      if nonce in spent {
        return RefusedWith(GrantReplay);
      }
      spent := spent + {nonce};
      if r.want.workspace.None? {
        return Raised;
      }
      if !r.mountMatches {
        return RefusedWith(MountMismatch);
      }
      if !r.secretsResolve {
        return RefusedWith(NoSecrets);
      }
      if r.want.argv.None? {
        return RefusedWith(SandboxUnavailable);
      }
      fired := fired + [nonce];
      match r.runner {
        case Fails => result := RefusedWith(SandboxUnavailable);
        case Exits(code) => result := Ran(code);
      }
    }
  }

  // ---- sequences of requests -------------------------------------------------------------------

  datatype Timed = Timed(request: Request, now: int)

  function Serve(m: Memory, rs: seq<Timed>, strict: bool): Memory {
    if rs == [] then m
    else
      var n := |rs| - 1;
      Handled(Serve(m, rs[..n], strict), rs[n].request, rs[n].now, strict).0
  }

  ghost predicate FiredOnce(m: Memory) {
    && (forall i, j | 0 <= i < j < |m.fired| :: m.fired[i] != m.fired[j])
    && (forall n | n in m.fired :: n in m.spent)
  }

  /** Over any sequence of requests to one limb, the runner starts at most once for each grant nonce. */
  lemma {:induction false} RunnerFiresOnce(rs: seq<Timed>, strict: bool)
    ensures FiredOnce(Serve(Memory({}, {}, []), rs, strict))
  {
    if rs != [] {
      var n := |rs| - 1;
      RunnerFiresOnce(rs[..n], strict);
      HandledKeeps(Serve(Memory({}, {}, []), rs[..n], strict), rs[n].request, rs[n].now, strict);
    }
  }

  lemma HandledKeeps(m: Memory, r: Request, now: int, strict: bool)
    requires FiredOnce(m)
    ensures FiredOnce(Handled(m, r, now, strict).0)
  {
    hide EarlyRefusal;
    var m' := Handled(m, r, now, strict).0;
    if |m'.fired| > |m.fired| {
      assert m'.fired == m.fired + [r.grant.body.nonce];
      forall i | 0 <= i < |m.fired| ensures m.fired[i] != r.grant.body.nonce {
        assert m.fired[i] in m.fired;
      }
    }
  }

  /** Every guard in front of the runner, at the moment of the request. */
  ghost predicate Authorized(m: Memory, r: Request, now: int, strict: bool) {
    var g, want := r.grant, r.want;
    && g.signed && g.typed && g.body.nonce != "" && g.body.nonce !in m.spent
    && g.body.notBefore.Some? && g.body.expires.Some?
    && g.body.notBefore.value - 60 <= now <= g.body.expires.value + 60
    && (want.runId.Some? ==> g.body.runId == want.runId)
    && (want.planSha.Some? ==> g.body.planSha == want.planSha)
    && want.workspace.Some? && g.body.workspace in {None, want.workspace}
    && want.argv.Some? && g.body.argv in {None, want.argv}
    && (strict ==> !r.access.Denied? && (r.access.WithProof? ==> r.access.proof !in m.proofs))
    && "run" in g.body.capabilities && r.closureMatches && r.mountMatches && r.secretsResolve
  }

  /** The nonces of the requests that passed every guard when they came, in order. */
  ghost function AuthorizedLog(rs: seq<Timed>, strict: bool): seq<string> {
    if rs == [] then []
    else
      var n := |rs| - 1;
      var m, r := Serve(Memory({}, {}, []), rs[..n], strict), rs[n];
      AuthorizedLog(rs[..n], strict) + if Authorized(m, r.request, r.now, strict) then [r.request.grant.body.nonce] else []
  }

  /** Over any sequence of requests the runner is started exactly for those that pass every guard at their own time. */
  lemma {:induction false} FiredWasAuthorized(rs: seq<Timed>, strict: bool)
    ensures Serve(Memory({}, {}, []), rs, strict).fired == AuthorizedLog(rs, strict)
  {
    if rs != [] {
      var n := |rs| - 1;
      FiredWasAuthorized(rs[..n], strict);
      StartedIff(Serve(Memory({}, {}, []), rs[..n], strict), rs[n].request, rs[n].now, strict);
    }
  }

  lemma StartedIff(m: Memory, r: Request, now: int, strict: bool)
    ensures Handled(m, r, now, strict).0.fired
         == m.fired + if Authorized(m, r, now, strict) then [r.grant.body.nonce] else []
  {
    assert m.fired + [] == m.fired;
  }

  /** The grant is authentic, inside its window with a minute to spare, and of this run, plan, workspace and command. */
  ghost predicate Genuine(g: Grant, now: int, want: Expected) {
    && g.signed && g.typed && g.body.nonce != ""
    && g.body.notBefore.Some? && g.body.expires.Some?
    && g.body.notBefore.value - 60 <= now <= g.body.expires.value + 60
    && (want.runId.Some? ==> g.body.runId == want.runId)
    && (want.planSha.Some? ==> g.body.planSha == want.planSha)
    && (want.workspace.Some? ==> g.body.workspace in {None, want.workspace})
    && (want.argv.Some? ==> g.body.argv in {None, want.argv})
  }

  /** The defect a refusal of the grant names. */
  ghost predicate Defect(g: Grant, now: int, want: Expected, reason: GrantReason) {
    match reason
    case BadSignature => !g.signed
    case WrongType => !g.typed
    case MalformedWindow => g.body.notBefore.None? || g.body.expires.None?
    case NotYetValid => g.body.notBefore.Some? && now + 60 < g.body.notBefore.value
    case Expired => g.body.expires.Some? && g.body.expires.value + 60 < now
    case WrongRun => want.runId.Some? && g.body.runId != want.runId
    case WrongPlan => want.planSha.Some? && g.body.planSha != want.planSha
    case WrongWorkspace => want.workspace.Some? && g.body.workspace !in {None, want.workspace}
    case WrongArgv => want.argv.Some? && g.body.argv !in {None, want.argv}
    case MalformedNonce => g.body.nonce == ""
    case Replay => false
  }

  /** In the order in which the defects are looked for. */
  function Rank(reason: GrantReason): nat {
    match reason
    case BadSignature => 0 case WrongType => 1 case MalformedWindow => 2 case NotYetValid => 3 case Expired => 4
    case WrongRun => 5 case WrongPlan => 6 case WrongWorkspace => 7 case WrongArgv => 8 case MalformedNonce => 9 case Replay => 10
  }

  /** A grant is refused exactly if it is not genuine, and the refusal names the first of its defects. */
  lemma RefusalNamesFirstDefect(g: Grant, now: int, want: Expected)
    ensures GrantRefusal(g, now, want).None? <==> Genuine(g, now, want)
    ensures GrantRefusal(g, now, want).None? ==> forall reason :: !Defect(g, now, want, reason)
    ensures forall reason | GrantRefusal(g, now, want) == Some(reason) ::
              Defect(g, now, want, reason) && forall other | Rank(other) < Rank(reason) :: !Defect(g, now, want, other)
  {
  }

  /**
    What the caller is told, in any state of the limb. A code is reported exactly if every guard passed and the runner
    exited with it; each refusal says which guard failed, those before it having passed.
   */
  lemma AnswerMeans(m: Memory, r: Request, now: int, strict: bool, code: int)
    ensures var answer, genuine := Handled(m, r, now, strict).1, Genuine(r.grant, now, r.want);
      var barred := strict && (r.access.Denied? || (r.access.WithProof? && r.access.proof in m.proofs));
      var runs, spent := "run" in r.grant.body.capabilities, r.grant.body.nonce in m.spent;
      var reached := genuine && !barred && runs && r.closureMatches && !spent;
      && (answer == Ran(code) <==> Authorized(m, r, now, strict) && r.runner == Exits(code))
      && ((exists reason :: answer == RefusedWith(BadGrant(reason))) <==> !genuine)
      && (answer == RefusedWith(AccessDenied) <==> genuine && barred)
      && (answer == RefusedWith(NoCapability) <==> genuine && !barred && !runs)
      && (answer == RefusedWith(ClosureMismatch) <==> genuine && !barred && runs && !r.closureMatches)
      && (answer == RefusedWith(GrantReplay) <==> genuine && !barred && runs && r.closureMatches && spent)
      && (answer == Raised <==> reached && r.want.workspace.None?)
      && (answer == RefusedWith(MountMismatch) <==> reached && r.want.workspace.Some? && !r.mountMatches)
      && (answer == RefusedWith(NoSecrets) <==> reached && r.want.workspace.Some? && r.mountMatches && !r.secretsResolve)
      && (answer == RefusedWith(SandboxUnavailable) <==>
            reached && r.want.workspace.Some? && r.mountMatches && r.secretsResolve && (r.want.argv.None? || r.runner.Fails?))
  {
    RefusalNamesFirstDefect(r.grant, now, r.want);
    AuthorizedMeans(m, r, now, strict);
    var refusal := GrantRefusal(r.grant, now, r.want);
    hide GrantRefusal, Genuine, Authorized;
    if refusal.Some? {
      assert Handled(m, r, now, strict).1 == RefusedWith(BadGrant(refusal.value));
    }
  }

  lemma AuthorizedMeans(m: Memory, r: Request, now: int, strict: bool)
    ensures Authorized(m, r, now, strict) <==>
      && Genuine(r.grant, now, r.want) && !(strict && (r.access.Denied? || (r.access.WithProof? && r.access.proof in m.proofs)))
      && "run" in r.grant.body.capabilities && r.closureMatches && r.grant.body.nonce !in m.spent
      && r.want.workspace.Some? && r.mountMatches && r.secretsResolve && r.want.argv.Some?
  {
  }

  /** What the limb remembers of a request: the nonce once the guards before the spend point passed, the proof once the grant did. */
  lemma MemoryMeans(m: Memory, r: Request, now: int, strict: bool)
    ensures var m', genuine := Handled(m, r, now, strict).0, Genuine(r.grant, now, r.want);
      var barred := strict && (r.access.Denied? || (r.access.WithProof? && r.access.proof in m.proofs));
      && (var spends := genuine && !barred && "run" in r.grant.body.capabilities && r.closureMatches;
          m'.spent == m.spent + if spends then {r.grant.body.nonce} else {})
      && m'.proofs == m.proofs + if genuine && r.access.WithProof? then {r.access.proof} else {}
  {
    RefusalNamesFirstDefect(r.grant, now, r.want);
    hide GrantRefusal, Genuine;
  }

  /** The token proof this request would spend before its refusal. */
  ghost predicate BurnsProof(m: Memory, r: Request, now: int, strict: bool) {
    && r.access.WithProof? && r.access.proof !in m.proofs && GrantRefusal(r.grant, now, r.want).None?
  }

  /**
    Only the spend point spends: a request refused in front of it, unless it burns a token proof, can be struck from the
    history without changing the limb's memory, and so without changing any later answer.
   */
  lemma {:induction false} EarlyRefusalLeavesNoTrace(m: Memory, rs: seq<Timed>, j: nat, strict: bool)
    requires j < |rs|
    requires var m', r := Serve(m, rs[..j], strict), rs[j];
      EarlyRefusal(m', r.request, r.now, strict).Some? && !BurnsProof(m', r.request, r.now, strict)
    ensures Serve(m, rs, strict) == Serve(m, rs[..j] + rs[j + 1..], strict)
    decreases |rs|
  {
    hide Handled, EarlyRefusal, BurnsProof;
    var n := |rs| - 1;
    if j == n {
      assert rs[..j] + rs[j + 1..] == rs[..n];
      RefusalChangesNothing(Serve(m, rs[..n], strict), rs[n].request, rs[n].now, strict);
    } else {
      assert rs[..n][..j] == rs[..j];
      EarlyRefusalLeavesNoTrace(m, rs[..n], j, strict);
      var struck := rs[..j] + rs[j + 1..];
      assert struck[..n - 1] == rs[..n][..j] + rs[..n][j + 1..] && struck[n - 1] == rs[n];
    }
  }

  lemma RefusalChangesNothing(m: Memory, r: Request, now: int, strict: bool)
    requires EarlyRefusal(m, r, now, strict).Some? && !BurnsProof(m, r, now, strict)
    ensures Handled(m, r, now, strict).0 == m
  {
    if r.access.WithProof? && r.access.proof in m.proofs {
      assert m.proofs + {r.access.proof} == m.proofs;
    }
  }

  /**
   * Sending the request again, once what refused it is mended, is answered as if the refusal had never been,
   * unless the access check had passed with a token proof: that is spent, and a strict limb then denies access.
   */
  lemma RetryAfterEarlyRefusal(m: Memory, r: Request, now: int, again: Request, later: int, strict: bool)
    requires EarlyRefusal(m, r, now, strict).Some?
    requires again.access == r.access && again.grant.body.nonce == r.grant.body.nonce
    requires EarlyRefusal(m, again, later, strict).None? && r.grant.body.nonce !in m.spent
    ensures var m' := Handled(m, r, now, strict).0;
      if strict && BurnsProof(m, r, now, strict) then Handled(m', again, later, strict).1 == RefusedWith(AccessDenied)
      else Handled(m', again, later, strict).1 == Handled(m, again, later, strict).1 == LateResult(again)
  {
    hide GrantRefusal;
  }

  // ---- the recorder ----------------------------------------------------------------------------

  datatype StepReport = StepReport(
    signed: bool, typed: bool, runId: Option<string>, planSha: Option<string>, step: string, status: string, nonce: string)

  datatype Entry = Accepted(step: string, status: string, nonce: string, runId: Option<string>, planSha: Option<string>) | Forged

  /** The two ids are keys of the document: absent, or present and possibly null. */
  datatype LedgerDoc = LedgerDoc(runId: Option<Option<string>>, planSha: Option<Option<string>>, runs: seq<Entry>)

  function Get(key: Option<Option<string>>): Option<string> {
    if key.Some? then key.value else None
  }

  /** setdefault */
  function Default(key: Option<Option<string>>, value: Option<string>): Option<Option<string>> {
    if key.Some? then key else Some(value)
  }

  predicate ReportVerifies(x: StepReport, runId: Option<string>, planSha: Option<string>) {
    && x.signed && x.typed && (runId.Some? ==> x.runId == runId) && (planSha.Some? ==> x.planSha == planSha)
    && x.status in {"ok", "error", "refused"} && x.nonce != ""
  }

  ghost predicate NonceSeen(doc: LedgerDoc, nonce: string) {
    exists e :: e in doc.runs && e.Accepted? && e.nonce == nonce
  }

  function Or(x: Option<string>, y: Option<string>): Option<string> {
    if x.Some? then x else y
  }

  /** An accepted report binds a fresh document to its run; anything else leaves a forgery on record. */
  ghost function Written(doc: LedgerDoc, x: StepReport, runId: Option<string>, planSha: Option<string>): LedgerDoc {
    if ReportVerifies(x, Or(runId, Get(doc.runId)), Or(planSha, Get(doc.planSha))) && !NonceSeen(doc, x.nonce)
    then LedgerDoc(Default(doc.runId, x.runId), Default(doc.planSha, x.planSha),
                   doc.runs + [Accepted(x.step, x.status, x.nonce, x.runId, x.planSha)])
    else doc.(runs := doc.runs + [Forged])
  }

  class Recorder {
    var runId: Option<Option<string>>
    var planSha: Option<Option<string>>
    var runs: seq<Entry>

    constructor ()
      ensures Value() == LedgerDoc(None, None, [])
    {
      runId, planSha, runs := None, None, [];
    }

    function Value(): LedgerDoc
      reads this
    {
      LedgerDoc(runId, planSha, runs)
    }

    method SeenNonces() returns (seen: set<string>)
      ensures forall n :: n in seen <==> NonceSeen(Value(), n)
    {
      seen := {};
      for i := 0 to |runs|
        invariant forall n :: n in seen <==> exists k :: 0 <= k < i && runs[k].Accepted? && runs[k].nonce == n
      {
        if runs[i].Accepted? {
          seen := seen + {runs[i].nonce};
        }
      }
    }

    method RecordStepResult(x: StepReport, expectRun: Option<string>, expectPlan: Option<string>) returns (accepted: bool)
      modifies this
      ensures Value() == Written(old(Value()), x, expectRun, expectPlan)
      ensures accepted <==>
                && x.signed && x.typed && x.nonce != "" && (x.status == "ok" || x.status == "error" || x.status == "refused")
                && (if expectRun.Some? then x.runId == expectRun
                    else old(runId).Some? && old(runId).value.Some? ==> x.runId == old(runId).value)
                && (if expectPlan.Some? then x.planSha == expectPlan
                    else old(planSha).Some? && old(planSha).value.Some? ==> x.planSha == old(planSha).value)
                && forall e | e in old(runs) && e.Accepted? :: e.nonce != x.nonce
      ensures runs == old(runs) + [if accepted then Accepted(x.step, x.status, x.nonce, x.runId, x.planSha) else Forged]
      ensures runId == if accepted && old(runId).None? then Some(x.runId) else old(runId)
      ensures planSha == if accepted && old(planSha).None? then Some(x.planSha) else old(planSha)
    {
      var seen := SeenNonces();
      accepted := ReportVerifies(x, Or(expectRun, Get(runId)), Or(expectPlan, Get(planSha))) && x.nonce !in seen;
      if !accepted {
        runs := runs + [Forged];
        return;
      }
      runId, planSha := Default(runId, x.runId), Default(planSha, x.planSha);
      runs := runs + [Accepted(x.step, x.status, x.nonce, x.runId, x.planSha)];
    }
  }

  datatype Submission = Submission(report: StepReport, runId: Option<string>, planSha: Option<string>)

  ghost function Record(doc: LedgerDoc, xs: seq<Submission>): LedgerDoc {
    if xs == [] then doc
    else
      var n := |xs| - 1;
      Written(Record(doc, xs[..n]), xs[n].report, xs[n].runId, xs[n].planSha)
  }

  ghost predicate DistinctNonces(doc: LedgerDoc) {
    forall i, j | 0 <= i < j < |doc.runs| && doc.runs[i].Accepted? && doc.runs[j].Accepted? :: doc.runs[i].nonce != doc.runs[j].nonce
  }

  /** The document binds, and every accepted record is of the run and plan it binds to. */
  ghost predicate BoundTo(doc: LedgerDoc, runId: string, planSha: string) {
    forall e | e in doc.runs && e.Accepted? :: Get(doc.runId) == Some(runId) == e.runId && Get(doc.planSha) == Some(planSha) == e.planSha
  }

  /** Whatever is submitted, in whatever order, no nonce is accepted twice. */
  lemma {:induction false} AcceptedNoncesDistinct(xs: seq<Submission>)
    ensures DistinctNonces(Record(LedgerDoc(None, None, []), xs))
  {
    if xs != [] {
      var n := |xs| - 1;
      AcceptedNoncesDistinct(xs[..n]);
      var doc := Record(LedgerDoc(None, None, []), xs[..n]);
      forall i | 0 <= i < |doc.runs| && doc.runs[i].Accepted? ensures NonceSeen(doc, doc.runs[i].nonce) {
        assert doc.runs[i] in doc.runs;
      }
    }
  }

  /** Submitted under one run and plan, or under none but carrying them, every accepted record is of that run and plan. */
  lemma {:induction false} AcceptedAreOfOneRun(xs: seq<Submission>, runId: string, planSha: string)
    requires forall x | x in xs ::
      && (x.runId == Some(runId) || (x.runId == None && x.report.runId == Some(runId)))
      && (x.planSha == Some(planSha) || (x.planSha == None && x.report.planSha == Some(planSha)))
    ensures var doc := Record(LedgerDoc(None, None, []), xs);
      && BoundTo(doc, runId, planSha)
      && (doc.runId == None || doc.runId == Some(Some(runId))) && (doc.planSha == None || doc.planSha == Some(Some(planSha)))
  {
    if xs != [] {
      var n := |xs| - 1;
      assert xs[n] in xs && forall x | x in xs[..n] :: x in xs;
      AcceptedAreOfOneRun(xs[..n], runId, planSha);
    }
  }

  /** A recorded refusal carries the grant's nonce, so the result of a later, successful use of that grant is not recorded. */
  lemma RecordedRefusalBlocksResult(doc: LedgerDoc, refused: StepReport, done: StepReport, runId: Option<string>, planSha: Option<string>)
    requires refused.status == "refused" && done.nonce == refused.nonce
    requires ReportVerifies(refused, Or(runId, Get(doc.runId)), Or(planSha, Get(doc.planSha))) && !NonceSeen(doc, refused.nonce)
    ensures var after := Written(doc, refused, runId, planSha);
      Written(after, done, runId, planSha).runs == after.runs + [Forged]
  {
    var e := Accepted(refused.step, refused.status, refused.nonce, refused.runId, refused.planSha);
    var after := Written(doc, refused, runId, planSha);
    assert e in after.runs && e.nonce == done.nonce;
  }
}
