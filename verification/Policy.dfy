/** Approvals, quotas and the only path from a decision to a tool: internal/policy/engine.go
    and internal/tool/runner.go. */
module Policy {
  import opened Wrappers
  import opened Strings

  datatype Status = Pending | Granted | Denied

  /** IDs are numbers here; `input` is the raw JSON. */
  datatype Approval = Approval(tool: string, input: string, status: Status)

  /** What the engine reads out of an input, `strings.EqualFold`, and the configuration. */
  datatype Rules = Rules(hostOf: string -> Option<string>, sandboxOf: string -> Option<string>,
                         sameFold: (string, string) -> bool,
                         autoAllow: seq<string>, requireApproval: seq<string>, dailyLimit: nat)
  {
    /** A host comes back trimmed, and is equal to itself up to case. */
    ghost predicate Lawful() {
      && dailyLimit > 0
      && (forall input {:trigger hostOf(input)} :: hostOf(input).Some? ==> Trimmed(hostOf(input).value))
      && (forall s {:trigger sameFold(s, s)} :: sameFold(s, s))
    }
  }

  datatype Error = NotFound | InvalidInput | NotGranted | QuotaExceeded | ApprovalRequired(id: nat) | SandboxDenied
                 | AlreadyResolved | SaveFailed | Transient

  /** What happened: a resolution with the input it was about, or a run of a tool, directly
      or with the ID of an approval. */
  datatype Entry =
    | Resolved(id: nat, input: string, approve: bool)
    | Executed(tool: string, input: string, approval: Option<nat>)

  type Log = seq<Entry>

  /** What the engine found in its files. */
  datatype Loaded = Loaded(approvals: map<nat, Approval>, domains: seq<string>)

  function Normal(name: string): string {
    TrimSpace(name)
  }

  predicate Names(list: seq<string>, tool: string) {
    exists i :: 0 <= i < |list| && Normal(list[i]) == tool
  }

  /** `containsDomain` */
  predicate ListsDomain(rules: Rules, domains: seq<string>, host: string) {
    exists i :: 0 <= i < |domains| && rules.sameFold(TrimSpace(domains[i]), host)
  }

  function Used(usage: map<string, nat>, tool: string): nat {
    if tool in usage then usage[tool] else 0
  }

  function Executions(log: Log, tool: string): nat {
    if log == [] then 0
    else Executions(log[..|log| - 1], tool) + if log[|log| - 1].Executed? && log[|log| - 1].tool == tool then 1 else 0
  }

  // ---- What may run ----

  predicate GrantsAt(log: Log, id: nat, n: nat, k: nat) {
    k < n <= |log| && log[k].Resolved? && log[k].id == id && log[k].approve
  }

  /** Before the `n`-th entry the approval was granted, in this run or when it was loaded. */
  ghost predicate GrantedBy(loaded: Loaded, log: Log, id: nat, n: nat) {
    (id in loaded.approvals && loaded.approvals[id].status.Granted?) || exists k :: GrantsAt(log, id, n, k)
  }

  predicate AddsDomain(rules: Rules, log: Log, d: string, n: nat, k: nat) {
    k < n <= |log| && log[k].Resolved? && log[k].approve && rules.hostOf(log[k].input) == Some(d)
  }

  /** The domain was in the file, or an approval granted before the `n`-th entry named it. */
  ghost predicate DomainBy(rules: Rules, loaded: Loaded, log: Log, d: string, n: nat) {
    d in loaded.domains || exists k :: AddsDomain(rules, log, d, n, k)
  }

  ghost predicate HostAllowed(rules: Rules, loaded: Loaded, log: Log, host: string, n: nat) {
    exists d :: DomainBy(rules, loaded, log, d, n) && rules.sameFold(TrimSpace(d), host)
  }

  /** Why a run was allowed: its approval had been granted, or, without an approval, the
      input asked for no special sandbox and either went to an allowed host or, having no
      URL, to a tool that is allowed outright or does not need approval. */
  ghost predicate Justified(rules: Rules, loaded: Loaded, log: Log, e: Entry, n: nat) {
    e.Executed? ==>
      match e.approval
      case Some(id) => GrantedBy(loaded, log, id, n)
      case None =>
        && (rules.sandboxOf(e.input).None? || rules.sandboxOf(e.input).value in {"", "use_default"})
        && match rules.hostOf(e.input)
           case Some(host) => HostAllowed(rules, loaded, log, host, n)
           case None => Names(rules.autoAllow, e.tool) || !Names(rules.requireApproval, e.tool)
  }

  ghost predicate AllJustified(rules: Rules, loaded: Loaded, log: Log) {
    forall i :: 0 <= i < |log| ==> Justified(rules, loaded, log, log[i], i)
  }

  /** A resolution is for good, a loaded one too; nothing else grants or denies. */
  ghost predicate Settled(loaded: Loaded, approvals: map<nat, Approval>, log: Log) {
    && (forall i :: 0 <= i < |log| && log[i].Resolved? ==>
          log[i].id in approvals && approvals[log[i].id].input == log[i].input &&
          approvals[log[i].id].status == if log[i].approve then Granted else Denied)
    && (forall i, j :: 0 <= i < j < |log| && log[i].Resolved? && log[j].Resolved? ==> log[i].id != log[j].id)
    && (forall id :: id in loaded.approvals ==>
          id in approvals && approvals[id].tool == loaded.approvals[id].tool &&
            approvals[id].input == loaded.approvals[id].input &&
          (!loaded.approvals[id].status.Pending? ==> approvals[id].status == loaded.approvals[id].status))
    && (forall id :: id in approvals && approvals[id].status.Granted? ==> GrantedBy(loaded, log, id, |log|))
  }

  /** The list holds what was loaded and the hosts of granted approvals, and nothing else. */
  ghost predicate DomainsBacked(rules: Rules, loaded: Loaded, domains: seq<string>, log: Log) {
    && loaded.domains <= domains
    && (forall d :: d in domains ==> DomainBy(rules, loaded, log, d, |log|))
    && (forall i :: 0 <= i < |log| && log[i].Resolved? && log[i].approve && rules.hostOf(log[i].input).Some? ==>
          ListsDomain(rules, domains, rules.hostOf(log[i].input).value))
  }

  /** Every run was paid for, and no tool ran more often than the limit. */
  ghost predicate Paid(rules: Rules, usage: map<string, nat>, log: Log) {
    forall tool :: Used(usage, tool) == Executions(log, tool) <= rules.dailyLimit
  }

  // ---- What a new entry keeps ----

  lemma BackedLater(rules: Rules, loaded: Loaded, log: Log, e: Entry, n: nat)
    requires n <= |log|
    ensures forall id :: GrantedBy(loaded, log, id, n) ==>
            GrantedBy(loaded, log + [e], id, n) && GrantedBy(loaded, log + [e], id, |log| + 1)
    ensures forall d :: DomainBy(rules, loaded, log, d, n) ==>
            DomainBy(rules, loaded, log + [e], d, n) && DomainBy(rules, loaded, log + [e], d, |log| + 1)
  {
    var more := log + [e];
    forall id | GrantedBy(loaded, log, id, n)
      ensures GrantedBy(loaded, more, id, n) && GrantedBy(loaded, more, id, |log| + 1)
    {
      if k :| GrantsAt(log, id, n, k) {
        assert GrantsAt(more, id, n, k) && GrantsAt(more, id, |log| + 1, k);
      }
    }
    forall d | DomainBy(rules, loaded, log, d, n)
      ensures DomainBy(rules, loaded, more, d, n) && DomainBy(rules, loaded, more, d, |log| + 1)
    {
      if k :| AddsDomain(rules, log, d, n, k) {
        assert AddsDomain(rules, more, d, n, k) && AddsDomain(rules, more, d, |log| + 1, k);
      }
    }
  }

  lemma HostLater(rules: Rules, loaded: Loaded, log: Log, e: Entry, n: nat, host: string)
    requires n <= |log| && HostAllowed(rules, loaded, log, host, n)
    ensures HostAllowed(rules, loaded, log + [e], host, n)
  {
    hide DomainBy;
    BackedLater(rules, loaded, log, e, n);
    var d :| DomainBy(rules, loaded, log, d, n) && rules.sameFold(TrimSpace(d), host);
    assert DomainBy(rules, loaded, log + [e], d, n);
  }

  lemma JustifiedLater(rules: Rules, loaded: Loaded, log: Log, e: Entry, earlier: Entry, n: nat)
    requires n <= |log| && Justified(rules, loaded, log, earlier, n)
    ensures Justified(rules, loaded, log + [e], earlier, n)
  {
    hide GrantedBy, DomainBy, HostAllowed, Names;
    BackedLater(rules, loaded, log, e, n);
    if earlier.Executed? && earlier.approval.None? && rules.hostOf(earlier.input).Some? {
      HostLater(rules, loaded, log, e, n, rules.hostOf(earlier.input).value);
    }
  }

  lemma AllJustifiedLater(rules: Rules, loaded: Loaded, log: Log, e: Entry)
    requires AllJustified(rules, loaded, log) && Justified(rules, loaded, log, e, |log|)
    ensures AllJustified(rules, loaded, log + [e])
  {
    hide Justified;
    forall i | 0 <= i < |log + [e]| ensures Justified(rules, loaded, log + [e], (log + [e])[i], i) {
      JustifiedLater(rules, loaded, log, e, (log + [e])[i], i);
    }
  }

  lemma ExecutionsSnoc(log: Log, e: Entry, tool: string)
    ensures Executions(log + [e], tool) == Executions(log, tool) + if e.Executed? && e.tool == tool then 1 else 0
  {
    assert (log + [e])[..|log|] == log;
  }

  lemma PaidLater(rules: Rules, usage: map<string, nat>, log: Log, e: Entry)
    requires Paid(rules, usage, log)
    ensures e.Resolved? ==> Paid(rules, usage, log + [e])
    ensures e.Executed? && Used(usage, e.tool) < rules.dailyLimit ==>
            Paid(rules, usage[e.tool := Used(usage, e.tool) + 1], log + [e])
  {
    hide Executions;
    forall tool
      ensures Executions(log + [e], tool) == Executions(log, tool) + if e.Executed? && e.tool == tool then 1 else 0
    {
      ExecutionsSnoc(log, e, tool);
    }
  }

  lemma ExecutedSettled(loaded: Loaded, approvals: map<nat, Approval>, log: Log, e: Entry)
    requires Settled(loaded, approvals, log) && e.Executed?
    ensures Settled(loaded, approvals, log + [e])
  {
    hide GrantedBy;
    BackedLater(Rules(_ => None, _ => None, (a, b) => a == b, [], [], 1), loaded, log, e, |log|);
    forall id | id in approvals && approvals[id].status.Granted? ensures GrantedBy(loaded, log + [e], id, |log + [e]|) {
      assert GrantedBy(loaded, log, id, |log|);
    }
  }

  lemma ExecutedDomains(rules: Rules, loaded: Loaded, domains: seq<string>, log: Log, e: Entry)
    requires DomainsBacked(rules, loaded, domains, log) && e.Executed?
    ensures DomainsBacked(rules, loaded, domains, log + [e])
  {
    hide DomainBy, ListsDomain;
    BackedLater(rules, loaded, log, e, |log|);
    forall d | d in domains ensures DomainBy(rules, loaded, log + [e], d, |log + [e]|) {
      assert DomainBy(rules, loaded, log, d, |log|);
    }
  }

  lemma ResolvedSettled(loaded: Loaded, approvals: map<nat, Approval>, log: Log, id: nat, approve: bool)
    requires Settled(loaded, approvals, log) && id in approvals && approvals[id].status.Pending?
    ensures var status := if approve then Granted else Denied;
      Settled(loaded, approvals[id := approvals[id].(status := status)],
              log + [Resolved(id, approvals[id].input, approve)])
  {
    hide GrantedBy;
    var e := Resolved(id, approvals[id].input, approve);
    var status := if approve then Granted else Denied;
    var now := approvals[id := approvals[id].(status := status)];
    BackedLater(Rules(_ => None, _ => None, (a, b) => a == b, [], [], 1), loaded, log, e, |log|);
    forall other | other in now && now[other].status.Granted? ensures GrantedBy(loaded, log + [e], other, |log + [e]|) {
      if other == id {
        GrantedNow(loaded, log, id, e.input);
      } else {
        assert GrantedBy(loaded, log, other, |log|);
      }
    }
  }

  lemma GrantedNow(loaded: Loaded, log: Log, id: nat, input: string)
    ensures GrantedBy(loaded, log + [Resolved(id, input, true)], id, |log| + 1)
  {
    assert GrantsAt(log + [Resolved(id, input, true)], id, |log| + 1, |log|);
  }

  /** The allowlist after a resolution. */
  function DomainsAfter(rules: Rules, domains: seq<string>, input: string, approve: bool): seq<string> {
    match rules.hostOf(input)
    case Some(host) => if approve && !ListsDomain(rules, domains, host) then domains + [host] else domains
    case None => domains
  }

  lemma ListsMore(rules: Rules, domains: seq<string>, host: string, other: string)
    requires ListsDomain(rules, domains, host)
    ensures ListsDomain(rules, domains + [other], host)
  {
    var i :| 0 <= i < |domains| && rules.sameFold(TrimSpace(domains[i]), host);
    assert (domains + [other])[i] == domains[i];
  }

  lemma ListsNew(rules: Rules, domains: seq<string>, host: string)
    requires rules.Lawful() && Trimmed(host)
    ensures ListsDomain(rules, domains + [host], host)
  {
    TrimmedIsFixed(host);
    assert (domains + [host])[|domains|] == host;
  }

  lemma ResolvedDomains(rules: Rules, loaded: Loaded, domains: seq<string>, log: Log, e: Entry)
    requires rules.Lawful() && DomainsBacked(rules, loaded, domains, log) && e.Resolved?
    ensures DomainsBacked(rules, loaded, DomainsAfter(rules, domains, e.input, e.approve), log + [e])
  {
    hide DomainBy, ListsDomain;
    var now := DomainsAfter(rules, domains, e.input, e.approve);
    BackedLater(rules, loaded, log, e, |log|);
    forall d | d in now ensures DomainBy(rules, loaded, log + [e], d, |log + [e]|) {
      if d in domains {
        assert DomainBy(rules, loaded, log, d, |log|);
      } else {
        DomainNow(rules, loaded, log, e, d);
      }
    }
    if e.approve && rules.hostOf(e.input).Some? {
      ListsNew(rules, domains, rules.hostOf(e.input).value);
    }
    forall i | 0 <= i < |log| && log[i].Resolved? && log[i].approve && rules.hostOf(log[i].input).Some?
      ensures ListsDomain(rules, now, rules.hostOf(log[i].input).value)
    {
      if now != domains {
        ListsMore(rules, domains, rules.hostOf(log[i].input).value, rules.hostOf(e.input).value);
      }
    }
  }

  lemma DomainNow(rules: Rules, loaded: Loaded, log: Log, e: Entry, d: string)
    requires e.Resolved? && e.approve && rules.hostOf(e.input) == Some(d)
    ensures DomainBy(rules, loaded, log + [e], d, |log| + 1)
  {
    assert AddsDomain(rules, log + [e], d, |log| + 1, |log|);
  }

  // ---- The engine ----

  datatype Verdict = Allow | Ask | OverQuota | BadSandbox

  /** The decision of `Check` on a normalised name. */
  function Decision(rules: Rules, domains: seq<string>, usage: map<string, nat>, tool: string, input: string): Verdict {
    if rules.sandboxOf(input) == Some("require_escalated") then Ask
    else if rules.sandboxOf(input).Some? && rules.sandboxOf(input).value !in {"", "use_default"} then BadSandbox
    else if Used(usage, tool) >= rules.dailyLimit then OverQuota
    else match rules.hostOf(input)
      case Some(host) => if ListsDomain(rules, domains, host) then Allow else Ask
      case None => if Names(rules.autoAllow, tool) || !Names(rules.requireApproval, tool) then Allow else Ask
  }

  /** When a call needs neither an approval nor an answer of the quota: its host is listed, or it
      has none and the tool is allowed outright or not restricted. */
  lemma DecisionMeans(rules: Rules, domains: seq<string>, usage: map<string, nat>, tool: string, input: string)
    ensures var sandbox, host := rules.sandboxOf(input), rules.hostOf(input);
      var free := sandbox.None? || sandbox.value == "" || sandbox.value == "use_default";
      var used := if tool in usage then usage[tool] else 0;
      match Decision(rules, domains, usage, tool, input)
      case Allow => free && used < rules.dailyLimit &&
        if host.Some? then exists i :: 0 <= i < |domains| && rules.sameFold(TrimSpace(domains[i]), host.value)
        else
          || (exists i :: 0 <= i < |rules.autoAllow| && TrimSpace(rules.autoAllow[i]) == tool)
          || (forall i :: 0 <= i < |rules.requireApproval| ==> TrimSpace(rules.requireApproval[i]) != tool)
      case Ask =>
        || sandbox == Some("require_escalated")
        || (free && used < rules.dailyLimit &&
            if host.Some? then forall i :: 0 <= i < |domains| ==> !rules.sameFold(TrimSpace(domains[i]), host.value)
            else
              && (forall i :: 0 <= i < |rules.autoAllow| ==> TrimSpace(rules.autoAllow[i]) != tool)
              && (exists i :: 0 <= i < |rules.requireApproval| && TrimSpace(rules.requireApproval[i]) == tool))
      case OverQuota => free && used >= rules.dailyLimit
      case BadSandbox => !free && sandbox != Some("require_escalated")
  {
    hide TrimSpace;
  }

  lemma AllowedHost(rules: Rules, loaded: Loaded, domains: seq<string>, log: Log, host: string)
    requires DomainsBacked(rules, loaded, domains, log) && ListsDomain(rules, domains, host)
    ensures HostAllowed(rules, loaded, log, host, |log|)
  {
    hide DomainBy;
    var i :| 0 <= i < |domains| && rules.sameFold(TrimSpace(domains[i]), host);
    assert domains[i] in domains && DomainBy(rules, loaded, log, domains[i], |log|);
  }

  lemma AllowedIsJustified(rules: Rules, loaded: Loaded, domains: seq<string>, usage: map<string, nat>, log: Log,
                           tool: string, input: string)
    requires DomainsBacked(rules, loaded, domains, log) && Decision(rules, domains, usage, tool, input) == Allow
    ensures Justified(rules, loaded, log, Executed(tool, input, None), |log|)
  {
    hide HostAllowed, DomainsBacked;
    if rules.hostOf(input).Some? {
      AllowedHost(rules, loaded, domains, log, rules.hostOf(input).value);
    }
  }

  class Engine {
    const rules: Rules
    ghost const loaded: Loaded
    var approvals: map<nat, Approval>
    var allowedDomains: seq<string>
    var usage: map<string, nat>
    var minted: nat
    ghost var log: Log

    ghost predicate Valid()
      reads this
    {
      && rules.Lawful() && (forall id :: id in approvals ==> id < minted)
      && Settled(loaded, approvals, log) && DomainsBacked(rules, loaded, allowedDomains, log)
      && AllJustified(rules, loaded, log) && Paid(rules, usage, log)
    }

    /** `NewEngine` and `load`: nothing has been used yet. */
    constructor (rules: Rules, approvals: map<nat, Approval>, domains: seq<string>, minted: nat)
      requires rules.Lawful() && forall id :: id in approvals ==> id < minted
      ensures Valid() && log == [] && loaded == Loaded(approvals, domains) && this.rules == rules
    {
      this.rules, this.approvals, allowedDomains, this.minted := rules, approvals, domains, minted;
      usage, log, loaded := map[], [], Loaded(approvals, domains);
    }

    /** `save` and `saveDomains`: writing the file succeeds or not. */
    method Save() returns (saved: bool)
    {
      saved :| true;
    }

    static method ListsName(list: seq<string>, tool: string) returns (found: bool)
      ensures found == Names(list, tool)
    {
      var i := 0;
      while i < |list|
        invariant 0 <= i <= |list| && forall k :: 0 <= k < i ==> Normal(list[k]) != tool
      {
        if Normal(list[i]) == tool {
          return true;
        }
        i := i + 1;
      }
      found := false;
    }

    method ContainsDomain(host: string) returns (found: bool)
      ensures found == ListsDomain(rules, allowedDomains, host)
    {
      var i := 0;
      while i < |allowedDomains|
        invariant 0 <= i <= |allowedDomains| && forall k :: 0 <= k < i ==>
                  !rules.sameFold(TrimSpace(allowedDomains[k]), host)
      {
        if rules.sameFold(TrimSpace(allowedDomains[i]), host) {
          return true;
        }
        i := i + 1;
      }
      found := false;
    }

    /** `createApproval`: an approval whose save failed stays pending in memory. */
    method CreateApproval(tool: string, input: string) returns (err: Error)
      requires Valid()
      modifies this`approvals, this`minted
      ensures Valid() && minted == old(minted) + 1
      ensures approvals == old(approvals)[old(minted) := Approval(Normal(tool), input, Pending)]
      ensures err in {ApprovalRequired(old(minted)), SaveFailed}
    {
      hide GrantedBy, DomainBy, ListsDomain, Justified, Executions;
      var id := minted;
      minted := minted + 1;
      approvals := approvals[id := Approval(Normal(tool), input, Pending)];
      var saved := Save();
      err := if saved then ApprovalRequired(id) else SaveFailed;
    }

    /** `Check`. When it allows a call it has already counted it, so the caller owes a run. */
    method Check(toolName: string, input: string) returns (err: Option<Error>)
      requires Valid()
      modifies this`approvals, this`minted, this`usage
      ensures var tool := Normal(toolName);
        match Decision(rules, allowedDomains, old(usage), tool, input)
        case Allow => err == None && usage == old(usage)[tool := Used(old(usage), tool) + 1] &&
          approvals == old(approvals) && minted == old(minted)
        case Ask =>
          && err in {Some(ApprovalRequired(old(minted))), Some(SaveFailed)} && usage == old(usage) && Valid()
          && approvals == old(approvals)[old(minted) := Approval(tool, input, Pending)]
        case OverQuota => err == Some(QuotaExceeded) && usage == old(usage) && approvals == old(approvals) && Valid()
        case BadSandbox => err == Some(SandboxDenied) && usage == old(usage) && approvals == old(approvals) && Valid()
      ensures var sandbox, host, tool := rules.sandboxOf(input), rules.hostOf(input), TrimSpace(toolName);
        var used := if tool in old(usage) then old(usage)[tool] else 0;
        err == None <==>
        && (sandbox.None? || sandbox.value == "" || sandbox.value == "use_default")
        && used < rules.dailyLimit
        && if host.Some? then
             exists i :: 0 <= i < |allowedDomains| && rules.sameFold(TrimSpace(allowedDomains[i]), host.value)
           else
             || (exists i :: 0 <= i < |rules.autoAllow| && TrimSpace(rules.autoAllow[i]) == tool)
             || (forall i :: 0 <= i < |rules.requireApproval| ==> TrimSpace(rules.requireApproval[i]) != tool)
    {
      hide Settled, DomainsBacked, AllJustified, Paid, Names, ListsDomain, TrimSpace;
      DecisionMeans(rules, allowedDomains, usage, Normal(toolName), input);
      var tool := Normal(toolName);
      NormalTwice(toolName);
      var permission := rules.sandboxOf(input);
      if permission.Some? {
        if permission.value == "" || permission.value == "use_default" {
        } else if permission.value == "require_escalated" {
          var e := CreateApproval(tool, input);
          return Some(e);
        } else {
          return Some(SandboxDenied);
        }
      }
      if Used(usage, tool) >= rules.dailyLimit {
        return Some(QuotaExceeded);
      }
      var host := rules.hostOf(input);
      if host.Some? {
        var listed := ContainsDomain(host.value);
        if !listed {
          var e := CreateApproval(tool, input);
          return Some(e);
        }
        Consume(tool);
        return None;
      }
      var auto := ListsName(rules.autoAllow, tool);
      if auto {
        Consume(tool);
        return None;
      }
      var restricted := ListsName(rules.requireApproval, tool);
      if !restricted {
        Consume(tool);
        return None;
      }
      var e := CreateApproval(tool, input);
      err := Some(e);
    }

    /** `consumeQuotaLocked` */
    method Consume(toolName: string)
      modifies this`usage
      ensures usage == old(usage)[Normal(toolName) := Used(old(usage), Normal(toolName)) + 1]
    {
      usage := usage[Normal(toolName) := Used(usage, Normal(toolName)) + 1];
    }

    method ConsumeQuota(toolName: string) returns (err: Option<Error>)
      modifies this`usage
      ensures var tool := Normal(toolName);
        if Used(old(usage), tool) >= rules.dailyLimit then err == Some(QuotaExceeded) && usage == old(usage)
        else err == None && usage == old(usage)[tool := Used(old(usage), tool) + 1]
    {
      hide TrimSpace;
      NormalTwice(toolName);
      if Used(usage, Normal(toolName)) >= rules.dailyLimit {
        return Some(QuotaExceeded);
      }
      Consume(Normal(toolName));
      err := None;
    }

    /** `IsGranted`: the file said so, or `Resolve` granted it at some time before. */
    method IsGranted(id: nat) returns (granted: bool)
      requires Valid()
      ensures granted <==> GrantedBy(loaded, log, id, |log|)
      ensures granted <==> id in approvals && approvals[id].status.Granted?
    {
      StatusTellsGrants(loaded, approvals, log, id);
      granted := id in approvals && approvals[id].status == Granted;
    }

    /** `Resolve`: once, for good; granting a request that names a host lists the host. */
    method Resolve(id: nat, approve: bool) returns (err: Option<Error>)
      requires Valid()
      modifies this`approvals, this`allowedDomains, this`log
      ensures Valid()
      ensures id !in old(approvals) ==> err == Some(NotFound)
      ensures id in old(approvals) && !old(approvals)[id].status.Pending? ==> err == Some(AlreadyResolved)
      ensures id in old(approvals) && old(approvals)[id].status.Pending? ==>
        var app := old(approvals)[id];
        && err in {None, Some(SaveFailed)}
        && approvals == old(approvals)[id := app.(status := if approve then Granted else Denied)]
        && allowedDomains == DomainsAfter(rules, old(allowedDomains), app.input, approve)
        && log == old(log) + [Resolved(id, app.input, approve)]
      ensures err in {Some(NotFound), Some(AlreadyResolved)} ==>
        approvals == old(approvals) && allowedDomains == old(allowedDomains) && log == old(log)
    {
      hide Settled, DomainsBacked, AllJustified, Paid, ListsDomain, Justified;
      if id !in approvals {
        return Some(NotFound);
      }
      var app := approvals[id];
      if app.status != Pending {
        return Some(AlreadyResolved);
      }
      ghost var e := Resolved(id, app.input, approve);
      ResolvedSettled(loaded, approvals, log, id, approve);
      ResolvedDomains(rules, loaded, allowedDomains, log, e);
      ResolvedJustified(rules, loaded, log, e);
      PaidLater(rules, usage, log, e);
      log := log + [e];
      if approve {
        var host := rules.hostOf(app.input);
        if host.Some? {
          var listed := ContainsDomain(host.value);
          if !listed {
            allowedDomains := allowedDomains + [host.value];
            var _ := Save();
          }
        }
      }
      approvals := approvals[id := app.(status := if approve then Granted else Denied)];
      var saved := Save();
      err := if saved then None else Some(SaveFailed);
    }
  }

  lemma ResolvedJustified(rules: Rules, loaded: Loaded, log: Log, e: Entry)
    requires AllJustified(rules, loaded, log) && e.Resolved?
    ensures AllJustified(rules, loaded, log + [e])
  {
    AllJustifiedLater(rules, loaded, log, e);
  }

  lemma NormalTwice(name: string)
    ensures Normal(Normal(name)) == Normal(name)
  {
    TrimSpaceTrims(name);
    TrimmedIsFixed(TrimSpace(name));
  }

  // ---- The runner ----

  class Runner {
    const engine: Engine
    const registry: string -> Option<string>  // a tool name to the name of the tool found
    const accepts: (string, string) -> bool   // does a tool's schema accept the input

    constructor (engine: Engine, registry: string -> Option<string>, accepts: (string, string) -> bool)
      ensures this.engine == engine && this.registry == registry && this.accepts == accepts
    {
      this.engine, this.registry, this.accepts := engine, registry, accepts;
    }

    /** `Execute`: a tool runs only after the decision, at most once a call, and is counted
        exactly when it runs. */
    method Execute(toolName: string, input: string, approvalID: Option<nat>) returns (ran: bool, err: Option<Error>)
      requires engine.Valid()
      modifies engine
      ensures engine.Valid() && engine.allowedDomains == old(engine.allowedDomains)
      ensures ran ==>
        && registry(toolName).Some? && accepts(registry(toolName).value, input) &&
           engine.approvals == old(engine.approvals)
        && engine.log == old(engine.log) + [Executed(Normal(registry(toolName).value), input, approvalID)]
      ensures !ran ==> engine.log == old(engine.log) && engine.usage == old(engine.usage) && err.Some?
      ensures registry(toolName).Some? && accepts(registry(toolName).value, input) ==>
        var tool := Normal(registry(toolName).value);
        match approvalID
        case Some(id) =>
          ran <==>
            id in old(engine.approvals) && old(engine.approvals)[id].status.Granted? &&
            Used(old(engine.usage), tool) < engine.rules.dailyLimit
        case None => ran <==>
          Decision(engine.rules, old(engine.allowedDomains), old(engine.usage), tool, input) == Allow
      ensures registry(toolName).None? ==> err == Some(NotFound)
      ensures registry(toolName).Some? && !accepts(registry(toolName).value, input) ==> err == Some(InvalidInput)
      ensures registry(toolName).Some? && accepts(registry(toolName).value, input) && !ran && approvalID.Some? ==>
        err == Some(if approvalID.value in old(engine.approvals) &&
                       old(engine.approvals)[approvalID.value].status.Granted? then QuotaExceeded else NotGranted)
      ensures registry(toolName).Some? && accepts(registry(toolName).value, input) && approvalID.None? ==>
        var verdict := Decision(engine.rules, old(engine.allowedDomains), old(engine.usage),
                                Normal(registry(toolName).value), input);
        && (verdict == OverQuota ==> err == Some(QuotaExceeded))
        && (verdict == BadSandbox ==> err == Some(SandboxDenied))
        && (verdict == Ask ==>
              && err in {Some(ApprovalRequired(old(engine.minted))), Some(SaveFailed)}
              && old(engine.minted) in engine.approvals && engine.approvals[old(engine.minted)].status.Pending?)
      ensures forall id :: id in old(engine.approvals) ==>
              id in engine.approvals && engine.approvals[id] == old(engine.approvals)[id]
    {
      hide Settled, DomainsBacked, AllJustified, Paid, Justified, GrantedBy, ListsDomain, Names, TrimSpace;
      ran := false;
      var t := registry(toolName);
      if t.None? {
        return false, Some(NotFound);
      }
      var tool := Normal(t.value);
      if !accepts(t.value, input) {
        return false, Some(InvalidInput);
      }
      NormalTwice(t.value);
      ghost var log, usage := engine.log, engine.usage;
      ghost var e := Executed(tool, input, approvalID);
      if approvalID.Some? {
        var granted := engine.IsGranted(approvalID.value);
        if !granted {
          return false, Some(NotGranted);
        }
        err := engine.ConsumeQuota(tool);
        if err.Some? {
          return;
        }
        GrantedIsJustified(engine.rules, engine.loaded, engine.approvals, log, e);
      } else {
        err := engine.Check(tool, input);
        if err.Some? {
          return;
        }
        AllowedIsJustified(engine.rules, engine.loaded, engine.allowedDomains, usage, log, tool, input);
      }
      ExecutedSettled(engine.loaded, engine.approvals, log, e);
      ExecutedDomains(engine.rules, engine.loaded, engine.allowedDomains, log, e);
      AllJustifiedLater(engine.rules, engine.loaded, log, e);
      PaidLater(engine.rules, usage, log, e);
      engine.log := engine.log + [e];
      ran := true;
      var ok: bool :| true;
      err := if ok then None else Some(Transient);
    }
  }

  /** The status in memory and the history of resolutions say the same. */
  lemma StatusTellsGrants(loaded: Loaded, approvals: map<nat, Approval>, log: Log, id: nat)
    requires Settled(loaded, approvals, log)
    ensures id in approvals && approvals[id].status.Granted? <==> GrantedBy(loaded, log, id, |log|)
  {
    if k: nat :| GrantsAt(log, id, |log|, k) {
      assert log[k].Resolved? && log[k].id == id;
    }
  }

  lemma GrantedIsJustified(rules: Rules, loaded: Loaded, approvals: map<nat, Approval>, log: Log, e: Entry)
    requires Settled(loaded, approvals, log) && e.Executed? && e.approval.Some?
    requires e.approval.value in approvals && approvals[e.approval.value].status.Granted?
    ensures Justified(rules, loaded, log, e, |log|)
  {
    hide GrantedBy;
  }

  // ---- Whole runs ----

  /** A tool that is only listed as needing approval has run on an input without URL only
      after some approval was granted, by `Resolve` or in the file. */
  lemma RestrictedToolsNeedAGrant(engine: Engine, i: nat)
    requires engine.Valid() && i < |engine.log| && engine.log[i].Executed? &&
             engine.rules.hostOf(engine.log[i].input).None?
    requires Names(engine.rules.requireApproval, engine.log[i].tool) &&
             !Names(engine.rules.autoAllow, engine.log[i].tool)
    ensures exists id :: GrantedBy(engine.loaded, engine.log, id, i)
  {
    hide GrantedBy, HostAllowed, Names, Settled, DomainsBacked, Paid;
    assert Justified(engine.rules, engine.loaded, engine.log, engine.log[i], i);
  }
}
