// NF instance failover and site failover (core/infra/resilience): a table of instances, a table of sites and
// a log, changed step by step, and what every run of those steps keeps.
module Resilience {
  import opened Wrappers
  import opened Ordering

  datatype Role = Active | Standby
  datatype Health = Healthy | Degraded | Failed
  // A row; its instance id is the key of the table.
  datatype Nf = Nf(id: int, nfType: string, priority: int, role: Role, health: Health)
  datatype SiteRole = ActiveSite | StandbySite | DrSite
  datatype SiteStatus = Online | Offline | FailedOver
  datatype Site = Site(id: int, role: SiteRole, status: SiteStatus)
  datatype Entry = Entry(nfType: string, from: string, to: string, reason: string)

  datatype State = State(nfs: map<string, Nf>, nextNf: int, sites: map<string, Site>, nextSite: int, log: seq<Entry>)

  ghost predicate ValidNfs(nfs: map<string, Nf>, next: int) {
    && (forall a :: a in nfs ==> nfs[a].id < next)
    && (forall a, b :: a in nfs && b in nfs && nfs[a].id == nfs[b].id ==> a == b)
  }

  ghost predicate ValidSites(sites: map<string, Site>, next: int) {
    && (forall a :: a in sites ==> sites[a].id < next)
    && (forall a, b :: a in sites && b in sites && sites[a].id == sites[b].id ==> a == b)
  }

  // The ids of either table are distinct and below the next one.
  ghost predicate Valid(s: State) {
    ValidNfs(s.nfs, s.nextNf) && ValidSites(s.sites, s.nextSite)
  }

  // NFList("") lists every type.
  predicate InScope(t: string, nf: Nf) {
    t == "" || nf.nfType == t
  }

  // ORDER BY priority DESC, id; over all types ORDER BY nf_type, priority DESC, id.
  predicate ListLe(t: string, a: Nf, b: Nf) {
    if t == "" && a.nfType != b.nfType then TextLe(a.nfType, b.nfType)
    else if a.priority != b.priority then a.priority > b.priority
    else a.id <= b.id
  }

  function ByListing(t: string): ((string, Nf), (string, Nf)) -> bool {
    (a: (string, Nf), b: (string, Nf)) => ListLe(t, a.1, b.1)
  }

  lemma ListOrder(t: string)
    ensures TotalOrder(ByListing(t))
  {
    forall a: (string, Nf), b: (string, Nf) ensures ListLe(t, a.1, b.1) || ListLe(t, b.1, a.1) {
      TextLeTotal(a.1.nfType, b.1.nfType);
    }
    forall a: (string, Nf), b: (string, Nf), c: (string, Nf) | ListLe(t, a.1, b.1) && ListLe(t, b.1, c.1)
      ensures ListLe(t, a.1, c.1)
    {
      ListTransitive(t, a.1, b.1, c.1);
    }
  }

  lemma ListAntisymmetric(t: string, a: Nf, b: Nf)
    requires ListLe(t, a, b) && ListLe(t, b, a)
    ensures a.id == b.id
  {
    if t == "" && a.nfType != b.nfType { TextLeAntisymmetric(a.nfType, b.nfType); }
  }

  lemma ListTransitive(t: string, a: Nf, b: Nf, c: Nf)
    requires ListLe(t, a, b) && ListLe(t, b, c)
    ensures ListLe(t, a, c)
  {
    if t == "" && a.nfType != b.nfType && b.nfType != c.nfType {
      if a.nfType == c.nfType { TextLeAntisymmetric(a.nfType, b.nfType); }
      TextLeTransitive(a.nfType, b.nfType, c.nfType);
    }
  }

  // ---- What a failover does ----

  // Standbys that are not failed: these can be promoted, whether healthy or degraded.
  function Eligible(nfs: map<string, Nf>, t: string): set<string> {
    set a | a in nfs && InScope(t, nfs[a]) && nfs[a].role == Standby && nfs[a].health != Failed
  }

  function Actives(nfs: map<string, Nf>, t: string): set<string> {
    set a | a in nfs && InScope(t, nfs[a]) && nfs[a].role == Active
  }

  // The eligible instance of highest priority, and of those the first listed.
  ghost predicate Chosen(nfs: map<string, Nf>, t: string, to: string) {
    && to in Eligible(nfs, t)
    && forall a :: a in Eligible(nfs, t) ==>
         nfs[to].priority > nfs[a].priority || (nfs[to].priority == nfs[a].priority && ListLe(t, nfs[to], nfs[a]))
  }

  // The first listed active instance, "" when there is none.
  ghost predicate Serving(nfs: map<string, Nf>, t: string, from: string) {
    if Actives(nfs, t) == {} then from == ""
    else from in Actives(nfs, t) && forall a :: a in Actives(nfs, t) ==> ListLe(t, nfs[from], nfs[a])
  }

  function Switched(nfs: map<string, Nf>, t: string, to: string): map<string, Nf> {
    map a | a in nfs ::
      if a == to then nfs[a].(role := Active)
      else if a in Actives(nfs, t) then nfs[a].(role := Standby, health := Failed)
      else nfs[a]
  }

  ghost predicate FailsOver(s: State, t: string, reason: string, s': State, from: string, to: string) {
    && Chosen(s.nfs, t, to) && Serving(s.nfs, t, from)
    && s' == s.(nfs := Switched(s.nfs, t, to), log := s.log + [Entry(t, from, to, reason)])
  }

  // What the tables show of a failover. The promoted instance was a standby that had not failed, of the highest
  // priority among those and then the first listed; the one the log names before it is the first active one
  // listed, if any; every active instance of the scope becomes a failed standby, and nothing else changes.
  lemma FailsOverMeans(s: State, t: string, reason: string, s': State, from: string, to: string)
    requires FailsOver(s, t, reason, s', from, to)
    ensures to in s.nfs && (t == "" || s.nfs[to].nfType == t) && s.nfs[to].role == Standby && s.nfs[to].health != Failed
    ensures forall a :: a in s.nfs && (t == "" || s.nfs[a].nfType == t) && s.nfs[a].role == Standby && s.nfs[a].health != Failed ==>
              s.nfs[a].priority < s.nfs[to].priority || (s.nfs[a].priority == s.nfs[to].priority && Listed(t, s.nfs[to], s.nfs[a]))
    ensures from == "" || (from in s.nfs && (t == "" || s.nfs[from].nfType == t) && s.nfs[from].role == Active)
    ensures forall a :: a in s.nfs && (t == "" || s.nfs[a].nfType == t) && s.nfs[a].role == Active ==>
              from in s.nfs && Listed(t, s.nfs[from], s.nfs[a])
    ensures s'.nfs.Keys == s.nfs.Keys && s'.nfs[to] == s.nfs[to].(role := Active)
    ensures forall a :: a in s.nfs && a != to ==>
              s'.nfs[a] == if (t == "" || s.nfs[a].nfType == t) && s.nfs[a].role == Active
                           then s.nfs[a].(role := Standby, health := Failed) else s.nfs[a]
    ensures s'.log == s.log + [Entry(t, from, to, reason)]
    ensures s'.sites == s.sites && s'.nextNf == s.nextNf && s'.nextSite == s.nextSite
  {
    forall a | a in s.nfs && (t == "" || s.nfs[a].nfType == t) && s.nfs[a].role == Standby && s.nfs[a].health != Failed
      ensures s.nfs[a].priority < s.nfs[to].priority || (s.nfs[a].priority == s.nfs[to].priority && Listed(t, s.nfs[to], s.nfs[a]))
    {
      assert a in Eligible(s.nfs, t);
    }
    forall a | a in s.nfs && (t == "" || s.nfs[a].nfType == t) && s.nfs[a].role == Active
      ensures from in s.nfs && Listed(t, s.nfs[from], s.nfs[a])
    {
      assert a in Actives(s.nfs, t);
    }
  }

  lemma NoneEligible(nfs: map<string, Nf>, t: string)
    requires Eligible(nfs, t) == {}
    ensures forall a :: a in nfs && (t == "" || nfs[a].nfType == t) && nfs[a].role == Standby ==> nfs[a].health == Failed
  {
    forall a | a in nfs && (t == "" || nfs[a].nfType == t) && nfs[a].role == Standby
      ensures nfs[a].health == Failed
    {
      assert a !in Eligible(nfs, t);
    }
  }

  // a is listed no later than b: by priority from the highest, then by id; over all types by type first.
  predicate Listed(t: string, a: Nf, b: Nf) {
    if t != "" || a.nfType == b.nfType then b.priority < a.priority || (b.priority == a.priority && a.id <= b.id)
    else TextLe(a.nfType, b.nfType)
  }

  // A failover leaves exactly one active instance in its scope, the chosen one; instances out of scope are
  // untouched; and exactly that one is no longer available for the next failover.
  lemma FailoverLeavesOneActive(s: State, t: string, reason: string, s': State, from: string, to: string)
    requires FailsOver(s, t, reason, s', from, to)
    ensures Actives(s'.nfs, t) == {to}
    ensures s'.nfs.Keys == s.nfs.Keys
    ensures forall a :: a in s.nfs && !InScope(t, s.nfs[a]) ==> s'.nfs[a] == s.nfs[a]
    ensures Eligible(s'.nfs, t) == Eligible(s.nfs, t) - {to}
    ensures |Eligible(s'.nfs, t)| == |Eligible(s.nfs, t)| - 1
  {
    assert forall a :: a in s'.nfs ==> s'.nfs[a].nfType == s.nfs[a].nfType;
  }

  // ---- Site failover ----

  function OnlineStandbys(sites: map<string, Site>): set<string> {
    set a | a in sites && sites[a].role == StandbySite && sites[a].status == Online
  }

  function ActiveSites(sites: map<string, Site>): set<string> {
    set a | a in sites && sites[a].role == ActiveSite
  }

  ghost predicate FirstOf(sites: map<string, Site>, among: set<string>, a: string) {
    if among == {} then a == "" else a in among && forall b :: b in among && b in sites && a in sites ==> sites[a].id <= sites[b].id
  }

  function SitesSwitched(sites: map<string, Site>, to: string): map<string, Site> {
    map a | a in sites ::
      if a == to then sites[a].(role := ActiveSite, status := Online)
      else if a in ActiveSites(sites) then sites[a].(role := StandbySite, status := FailedOver)
      else sites[a]
  }

  ghost predicate SiteFailsOver(s: State, reason: string, s': State, from: string, to: string) {
    && OnlineStandbys(s.sites) != {}
    && FirstOf(s.sites, OnlineStandbys(s.sites), to) && FirstOf(s.sites, ActiveSites(s.sites), from)
    && s' == s.(sites := SitesSwitched(s.sites, to), log := s.log + [Entry("site", from, to, reason)])
  }

  lemma NoneOnline(sites: map<string, Site>)
    requires OnlineStandbys(sites) == {}
    ensures forall a :: a in sites && sites[a].role == StandbySite ==> sites[a].status != Online
  {
    forall a | a in sites && sites[a].role == StandbySite ensures sites[a].status != Online {
      assert a !in OnlineStandbys(sites);
    }
  }

  // What the tables show of a site failover: the online standby of lowest id becomes active and online, every
  // active site a standby that failed over, and nothing else changes.
  lemma SiteFailsOverMeans(s: State, reason: string, s': State, from: string, to: string)
    requires SiteFailsOver(s, reason, s', from, to)
    ensures to in s.sites && s.sites[to].role == StandbySite && s.sites[to].status == Online
    ensures forall a :: a in s.sites && s.sites[a].role == StandbySite && s.sites[a].status == Online ==>
              s.sites[to].id <= s.sites[a].id
    ensures from == "" || (from in s.sites && s.sites[from].role == ActiveSite)
    ensures forall a :: a in s.sites && s.sites[a].role == ActiveSite ==> from in s.sites && s.sites[from].id <= s.sites[a].id
    ensures s'.sites.Keys == s.sites.Keys && s'.sites[to] == s.sites[to].(role := ActiveSite, status := Online)
    ensures forall a :: a in s.sites && a != to ==>
              s'.sites[a] == if s.sites[a].role == ActiveSite then s.sites[a].(role := StandbySite, status := FailedOver)
                             else s.sites[a]
    ensures s'.log == s.log + [Entry("site", from, to, reason)]
    ensures s'.nfs == s.nfs && s'.nextNf == s.nextNf && s'.nextSite == s.nextSite
  {
    forall a | a in s.sites && s.sites[a].role == StandbySite && s.sites[a].status == Online
      ensures s.sites[to].id <= s.sites[a].id
    {
      assert a in OnlineStandbys(s.sites);
    }
    forall a | a in s.sites && s.sites[a].role == ActiveSite
      ensures from in s.sites && s.sites[from].id <= s.sites[a].id
    {
      assert a in ActiveSites(s.sites);
    }
  }

  lemma SiteFailoverLeavesOneActive(s: State, reason: string, s': State, from: string, to: string)
    requires SiteFailsOver(s, reason, s', from, to)
    ensures ActiveSites(s'.sites) == {to}
    ensures OnlineStandbys(s'.sites) == OnlineStandbys(s.sites) - {to}
    ensures |OnlineStandbys(s'.sites)| == |OnlineStandbys(s.sites)| - 1
  {
  }

  // ---- Steps and runs ----

  datatype Step =
    | Register(nfType: string, instanceId: string, priority: int, role: string)
    | Heartbeat(instanceId: string)
    | DetectFailure(instanceId: string)
    | NfDelete(instanceId: string)
    | Failover(nfType: string, reason: string)
    | RegisterSite(name: string, siteRole: string)
    | SiteDelete(name: string)
    | SiteFailover(reason: string)

  predicate Registers(s: State, step: Step) {
    step.Register? && step.role in {"active", "standby"} && step.instanceId !in s.nfs
  }

  predicate RegistersSite(s: State, step: Step) {
    step.RegisterSite? && step.siteRole in {"active", "standby", "dr_site"} && step.name !in s.sites
  }

  function Registered(s: State, step: Step): State
    requires Registers(s, step)
  {
    var role := if step.role == "active" then Active else Standby;
    s.(nfs := s.nfs[step.instanceId := Nf(s.nextNf, step.nfType, step.priority, role, Healthy)], nextNf := s.nextNf + 1)
  }

  function SiteRegistered(s: State, step: Step): State
    requires RegistersSite(s, step)
  {
    var role := if step.siteRole == "active" then ActiveSite else if step.siteRole == "standby" then StandbySite else DrSite;
    s.(sites := s.sites[step.name := Site(s.nextSite, role, Online)], nextSite := s.nextSite + 1)
  }

  function WithHealth(nfs: map<string, Nf>, a: string, h: Health): map<string, Nf> {
    if a in nfs then nfs[a := nfs[a].(health := h)] else nfs
  }

  // Whether a failover for t, or a site failover, succeeds.
  predicate Succeeds(s: State, step: Step) {
    || (step.Failover? && Eligible(s.nfs, step.nfType) != {})
    || (step.SiteFailover? && OnlineStandbys(s.sites) != {})
  }

  // One step. A refused step changes nothing.
  ghost predicate Next(s: State, step: Step, s': State) {
    match step
    case Register(_, _, _, _) => s' == if Registers(s, step) then Registered(s, step) else s
    case Heartbeat(a) => s' == s.(nfs := WithHealth(s.nfs, a, Healthy))
    case DetectFailure(a) => s' == s.(nfs := WithHealth(s.nfs, a, Failed))
    case NfDelete(a) => s' == s.(nfs := s.nfs - {a})
    case Failover(t, reason) =>
      if Succeeds(s, step) then exists from, to :: FailsOver(s, t, reason, s', from, to) else s' == s
    case RegisterSite(_, _) => s' == if RegistersSite(s, step) then SiteRegistered(s, step) else s
    case SiteDelete(a) => s' == s.(sites := s.sites - {a})
    case SiteFailover(reason) =>
      if Succeeds(s, step) then exists from, to :: SiteFailsOver(s, reason, s', from, to) else s' == s
  }

  ghost predicate NextAt(states: seq<State>, steps: seq<Step>, i: nat)
    requires i < |steps| < |states|
  {
    Next(states[i], steps[i], states[i + 1])
  }

  ghost predicate Run(states: seq<State>, steps: seq<Step>) {
    && |states| == |steps| + 1 && Valid(states[0])
    && forall i :: 0 <= i < |steps| ==> NextAt(states, steps, i)
  }

  lemma StepKeepsNfs(s: State, step: Step, s': State)
    requires Valid(s) && Next(s, step, s')
    ensures ValidNfs(s'.nfs, s'.nextNf)
  {
    if step.Failover? && Succeeds(s, step) {
      var from, to :| FailsOver(s, step.nfType, step.reason, s', from, to);
      assert forall a :: a in s'.nfs ==> s'.nfs[a].id == s.nfs[a].id;
    }
  }

  lemma StepKeepsSites(s: State, step: Step, s': State)
    requires Valid(s) && Next(s, step, s')
    ensures ValidSites(s'.sites, s'.nextSite)
  {
    if step.SiteFailover? && Succeeds(s, step) {
      var from, to :| SiteFailsOver(s, step.reason, s', from, to);
      assert forall a :: a in s'.sites ==> s'.sites[a].id == s.sites[a].id;
    }
  }

  lemma StepKeepsValid(s: State, step: Step, s': State)
    requires Valid(s) && Next(s, step, s')
    ensures Valid(s')
  {
    StepKeepsNfs(s, step, s');
    StepKeepsSites(s, step, s');
  }

  lemma FailoverIsStep(s: State, t: string, reason: string, s': State, from: string, to: string)
    requires Valid(s) && FailsOver(s, t, reason, s', from, to)
    ensures Next(s, Failover(t, reason), s') && Valid(s') && Eligible(s.nfs, t) != {}
  {
    assert Next(s, Failover(t, reason), s');
    StepKeepsValid(s, Failover(t, reason), s');
  }

  lemma SiteFailoverIsStep(s: State, reason: string, s': State, from: string, to: string)
    requires Valid(s) && SiteFailsOver(s, reason, s', from, to)
    ensures Next(s, SiteFailover(reason), s') && Valid(s')
  {
    assert Next(s, SiteFailover(reason), s');
    StepKeepsValid(s, SiteFailover(reason), s');
  }

  lemma {:induction false} RunValid(states: seq<State>, steps: seq<Step>, n: nat)
    requires Run(states, steps) && n <= |steps|
    ensures Valid(states[n])
  {
    if n == 0 {
    } else {
      RunValid(states, steps, n - 1);
      assert NextAt(states, steps, n - 1);
      StepKeepsValid(states[n - 1], steps[n - 1], states[n]);
    }
  }

  // ---- The health of the instance a failover promotes ----

  ghost predicate NoneDegraded(nfs: map<string, Nf>) {
    forall a :: a in nfs ==> nfs[a].health != Degraded
  }

  // No step makes an instance degraded.
  lemma StepDegradesNone(s: State, step: Step, s': State)
    requires Next(s, step, s') && NoneDegraded(s.nfs)
    ensures NoneDegraded(s'.nfs)
  {
    if step.Failover? && Succeeds(s, step) {
      var from, to :| FailsOver(s, step.nfType, step.reason, s', from, to);
    }
  }

  lemma {:induction false} RunDegradesNone(states: seq<State>, steps: seq<Step>, n: nat)
    requires Run(states, steps) && n <= |steps| && NoneDegraded(states[0].nfs)
    ensures NoneDegraded(states[n].nfs)
  {
    if n == 0 {
    } else {
      RunDegradesNone(states, steps, n - 1);
      assert NextAt(states, steps, n - 1);
      StepDegradesNone(states[n - 1], steps[n - 1], states[n]);
    }
  }

  // In every run from a table without degraded instances, whatever a failover promotes is healthy, before and
  // after it.
  lemma RunPromotesHealthy(states: seq<State>, steps: seq<Step>, n: nat,
                           t: string, reason: string, s': State, from: string, to: string)
    requires Run(states, steps) && n <= |steps| && NoneDegraded(states[0].nfs)
    requires FailsOver(states[n], t, reason, s', from, to)
    ensures states[n].nfs[to].health == Healthy && s'.nfs[to] == states[n].nfs[to].(role := Active)
  {
    RunDegradesNone(states, steps, n);
  }

  // Until it is heard of or registered anew, an instance that was reported failed stays failed and no failover
  // promotes it.
  lemma {:induction false} StaysFailed(states: seq<State>, steps: seq<Step>, a: string, i: nat, n: nat)
    requires Run(states, steps) && i < n <= |steps| && steps[i] == DetectFailure(a)
    requires forall k :: i < k < n ==>
               steps[k] != Heartbeat(a) && !(steps[k].Register? && steps[k].instanceId == a)
    ensures a in states[n].nfs ==> states[n].nfs[a].health == Failed
    decreases n
  {
    assert NextAt(states, steps, n - 1);
    if n == i + 1 {
    } else {
      StaysFailed(states, steps, a, i, n - 1);
      StepKeepsFailed(states[n - 1], steps[n - 1], states[n], a);
    }
  }

  lemma StepKeepsFailed(s: State, step: Step, s': State, a: string)
    requires Next(s, step, s') && (a in s.nfs ==> s.nfs[a].health == Failed)
    requires step != Heartbeat(a) && !(step.Register? && step.instanceId == a)
    ensures a in s'.nfs ==> s'.nfs[a].health == Failed
  {
    if step.Failover? && Succeeds(s, step) {
      var from, to :| FailsOver(s, step.nfType, step.reason, s', from, to);
    }
  }

  lemma FailedNotPromoted(states: seq<State>, steps: seq<Step>, a: string, i: nat, n: nat,
                          t: string, reason: string, s': State, from: string, to: string)
    requires Run(states, steps) && i < n <= |steps| && steps[i] == DetectFailure(a)
    requires forall k :: i < k < n ==>
               steps[k] != Heartbeat(a) && !(steps[k].Register? && steps[k].instanceId == a)
    requires FailsOver(states[n], t, reason, s', from, to)
    ensures to != a
  {
    StaysFailed(states, steps, a, i, n);
  }

  // a comes before b by priority and then in the listing: the order in which standbys are chosen.
  predicate Precedes(t: string, a: Nf, b: Nf) {
    a.priority > b.priority || (a.priority == b.priority && ListLe(t, a, b))
  }

  // On any table, a failover promotes a healthy instance exactly when there is a healthy standby that no
  // degraded one precedes.
  lemma PromotesHealthyIff(s: State, t: string, reason: string, s': State, from: string, to: string)
    requires Valid(s) && FailsOver(s, t, reason, s', from, to)
    ensures s.nfs[to].health == Healthy <==>
            exists h :: h in Eligible(s.nfs, t) && s.nfs[h].health == Healthy
              && forall d :: d in Eligible(s.nfs, t) && s.nfs[d].health == Degraded ==> !Precedes(t, s.nfs[d], s.nfs[h])
  {
    if s.nfs[to].health == Healthy {
      forall d | d in Eligible(s.nfs, t) && s.nfs[d].health == Degraded
        ensures !Precedes(t, s.nfs[d], s.nfs[to])
      {
        if Precedes(t, s.nfs[d], s.nfs[to]) { ListAntisymmetric(t, s.nfs[d], s.nfs[to]); }
      }
    }
  }

  // ---- How many failovers can succeed ----

  // The steps that succeed in failing over scope t.
  predicate FailsOverScope(s: State, step: Step, t: string) {
    step.Failover? && step.nfType == t && Succeeds(s, step)
  }

  // The steps that make one more standby of scope t available: a heartbeat of a failed one, the registration
  // of a new one.
  predicate Refills(s: State, step: Step, t: string) {
    match step
    case Heartbeat(a) => a in s.nfs && InScope(t, s.nfs[a]) && s.nfs[a].role == Standby && s.nfs[a].health == Failed
    case Register(ty, _, _, role) => Registers(s, step) && role == "standby" && (t == "" || ty == t)
    case _ => false
  }

  function Successes(states: seq<State>, steps: seq<Step>, t: string, n: nat): nat
    requires |states| == |steps| + 1 && n <= |steps|
  {
    if n == 0 then 0
    else Successes(states, steps, t, n - 1) + if FailsOverScope(states[n - 1], steps[n - 1], t) then 1 else 0
  }

  function RefillCount(states: seq<State>, steps: seq<Step>, t: string, n: nat): nat
    requires |states| == |steps| + 1 && n <= |steps|
  {
    if n == 0 then 0
    else RefillCount(states, steps, t, n - 1) + if Refills(states[n - 1], steps[n - 1], t) then 1 else 0
  }

  lemma SmallerSet(a: set<string>, b: set<string>)
    requires a <= b
    ensures |a| <= |b|
  {
    assert b == a + (b - a);
  }

  lemma OneMore(a: set<string>, b: set<string>, x: string)
    requires a <= b + {x}
    ensures |a| <= |b| + 1
  {
    SmallerSet(a, b + {x});
  }

  // Every step makes at most as many instances available as the count allows.
  lemma StepAvailability(s: State, step: Step, s': State, t: string)
    requires Next(s, step, s')
    ensures |Eligible(s'.nfs, t)| + (if FailsOverScope(s, step, t) then 1 else 0)
            <= |Eligible(s.nfs, t)| + if Refills(s, step, t) then 1 else 0
  {
    var e, e' := Eligible(s.nfs, t), Eligible(s'.nfs, t);
    match step
    case Register(_, a, _, _) =>
      if Refills(s, step, t) { OneMore(e', e, a); } else { SmallerSet(e', e); }
    case Heartbeat(a) =>
      if Refills(s, step, t) { OneMore(e', e, a); } else { SmallerSet(e', e); }
    case Failover(t', reason) =>
      if Succeeds(s, step) {
        var from, to :| FailsOver(s, t', reason, s', from, to);
        if t' == t {
          FailoverLeavesOneActive(s, t, reason, s', from, to);
        } else {
          assert forall a :: a in s'.nfs ==> s'.nfs[a].nfType == s.nfs[a].nfType;
          SmallerSet(e', e);
        }
      }
    case _ =>
      SmallerSet(e', e);
  }

  lemma RunAvailability(states: seq<State>, steps: seq<Step>, t: string, i: nat)
    requires Run(states, steps) && i < |steps|
    ensures |Eligible(states[i + 1].nfs, t)| + (if FailsOverScope(states[i], steps[i], t) then 1 else 0)
            <= |Eligible(states[i].nfs, t)| + if Refills(states[i], steps[i], t) then 1 else 0
  {
    assert NextAt(states, steps, i);
    StepAvailability(states[i], steps[i], states[i + 1], t);
  }

  // In every run the failovers of a scope number at most its available standbys at the start plus the standbys
  // that heartbeats and registrations made available; without those, no more than the standbys there were.
  lemma {:induction false} FailoversBounded(states: seq<State>, steps: seq<Step>, t: string, n: nat)
    requires Run(states, steps) && n <= |steps|
    ensures Successes(states, steps, t, n) + |Eligible(states[n].nfs, t)|
            <= |Eligible(states[0].nfs, t)| + RefillCount(states, steps, t, n)
  {
    if n == 0 {
    } else {
      FailoversBounded(states, steps, t, n - 1);
      RunAvailability(states, steps, t, n - 1);
    }
  }

  predicate FailsOverSite(s: State, step: Step) {
    step.SiteFailover? && Succeeds(s, step)
  }

  // The steps that make one more standby site available.
  predicate RefillsSites(s: State, step: Step) {
    RegistersSite(s, step) && step.siteRole == "standby"
  }

  function SiteSuccesses(states: seq<State>, steps: seq<Step>, n: nat): nat
    requires |states| == |steps| + 1 && n <= |steps|
  {
    if n == 0 then 0
    else SiteSuccesses(states, steps, n - 1) + if FailsOverSite(states[n - 1], steps[n - 1]) then 1 else 0
  }

  function SiteRefillCount(states: seq<State>, steps: seq<Step>, n: nat): nat
    requires |states| == |steps| + 1 && n <= |steps|
  {
    if n == 0 then 0
    else SiteRefillCount(states, steps, n - 1) + if RefillsSites(states[n - 1], steps[n - 1]) then 1 else 0
  }

  lemma SiteStepAvailability(s: State, step: Step, s': State)
    requires Next(s, step, s')
    ensures |OnlineStandbys(s'.sites)| + (if FailsOverSite(s, step) then 1 else 0)
            <= |OnlineStandbys(s.sites)| + if RefillsSites(s, step) then 1 else 0
  {
    var e, e' := OnlineStandbys(s.sites), OnlineStandbys(s'.sites);
    match step
    case RegisterSite(a, _) =>
      if RefillsSites(s, step) { OneMore(e', e, a); } else { SmallerSet(e', e); }
    case SiteFailover(reason) =>
      if Succeeds(s, step) {
        var from, to :| SiteFailsOver(s, reason, s', from, to);
        SiteFailoverLeavesOneActive(s, reason, s', from, to);
      }
    case _ => SmallerSet(e', e);
  }

  lemma RunSiteAvailability(states: seq<State>, steps: seq<Step>, i: nat)
    requires Run(states, steps) && i < |steps|
    ensures |OnlineStandbys(states[i + 1].sites)| + (if FailsOverSite(states[i], steps[i]) then 1 else 0)
            <= |OnlineStandbys(states[i].sites)| + if RefillsSites(states[i], steps[i]) then 1 else 0
  {
    assert NextAt(states, steps, i);
    SiteStepAvailability(states[i], steps[i], states[i + 1]);
  }

  // A site once demoted never comes back: site failovers number at most the online standbys there ever were.
  lemma {:induction false} SiteFailoversBounded(states: seq<State>, steps: seq<Step>, n: nat)
    requires Run(states, steps) && n <= |steps|
    ensures SiteSuccesses(states, steps, n) + |OnlineStandbys(states[n].sites)|
            <= |OnlineStandbys(states[0].sites)| + SiteRefillCount(states, steps, n)
  {
    if n == 0 {
    } else {
      SiteFailoversBounded(states, steps, n - 1);
      RunSiteAvailability(states, steps, n - 1);
    }
  }

  // ---- The failover log chains ----

  // a serves type t and is listed before any other active instance of it.
  ghost predicate Leads(nfs: map<string, Nf>, t: string, a: string) {
    a in Actives(nfs, t) && forall b :: b in Actives(nfs, t) ==> ListLe(t, nfs[a], nfs[b])
  }

  // A step between two failovers of t that leaves a in the lead and writes no entry under t: it does not
  // delete a, register an active instance of t above it, fail over all types at once, or, when t is the
  // name site failovers are logged under, fail over a site.
  predicate Quiet(s: State, step: Step, t: string, a: string)
    requires a in s.nfs
  {
    match step
    case Register(ty, _, priority, role) =>
      !(Registers(s, step) && ty == t && role == "active" && priority > s.nfs[a].priority)
    case NfDelete(b) => b != a
    case Failover(t', _) => !Succeeds(s, step) || (t' != "" && t' != t)
    case SiteFailover(_) => !Succeeds(s, step) || t != "site"
    case _ => true
  }

  function EntriesOf(log: seq<Entry>, t: string): seq<Entry> {
    if log == [] then [] else
      EntriesOf(log[..|log| - 1], t) + if log[|log| - 1].nfType == t then [log[|log| - 1]] else []
  }

  lemma EntryAdded(log: seq<Entry>, e: Entry, t: string)
    ensures EntriesOf(log + [e], t) == EntriesOf(log, t) + if e.nfType == t then [e] else []
  {
    assert (log + [e])[..|log|] == log;
  }

  lemma QuietFailover(s: State, t': string, reason: string, s': State, from: string, to: string, t: string, a: string)
    requires FailsOver(s, t', reason, s', from, to) && t != "" && t' != "" && t' != t && Leads(s.nfs, t, a)
    ensures Leads(s'.nfs, t, a)
  {
    assert forall b :: b in s'.nfs ==> s'.nfs[b].nfType == s.nfs[b].nfType;
    assert Actives(s'.nfs, t) == Actives(s.nfs, t);
  }

  lemma QuietRegistration(s: State, step: Step, t: string, a: string)
    requires Valid(s) && Registers(s, step) && t != "" && Leads(s.nfs, t, a) && Quiet(s, step, t, a)
    ensures Leads(Registered(s, step).nfs, t, a)
  {
  }

  lemma QuietHealth(nfs: map<string, Nf>, b: string, h: Health, t: string, a: string)
    requires Leads(nfs, t, a)
    ensures Leads(WithHealth(nfs, b, h), t, a)
  {
    assert Actives(WithHealth(nfs, b, h), t) == Actives(nfs, t);
  }

  lemma QuietKeepsLead(s: State, step: Step, s': State, t: string, a: string)
    requires Valid(s) && Next(s, step, s') && t != "" && Leads(s.nfs, t, a) && Quiet(s, step, t, a)
    ensures Leads(s'.nfs, t, a)
  {
    match step
    case Register(_, _, _, _) => if Registers(s, step) { QuietRegistration(s, step, t, a); }
    case Heartbeat(b) => QuietHealth(s.nfs, b, Healthy, t, a);
    case DetectFailure(b) => QuietHealth(s.nfs, b, Failed, t, a);
    case Failover(t', reason) =>
      if Succeeds(s, step) {
        var from, to :| FailsOver(s, t', reason, s', from, to);
        QuietFailover(s, t', reason, s', from, to, t, a);
      }
    case _ =>
  }

  lemma QuietKeepsEntries(s: State, step: Step, s': State, t: string, a: string)
    requires Next(s, step, s') && t != "" && a in s.nfs && Quiet(s, step, t, a)
    ensures EntriesOf(s'.log, t) == EntriesOf(s.log, t)
  {
    if step.Failover? && Succeeds(s, step) {
      var from, to :| FailsOver(s, step.nfType, step.reason, s', from, to);
      EntryAdded(s.log, Entry(step.nfType, from, to, step.reason), t);
    }
    if step.SiteFailover? && Succeeds(s, step) {
      var from, to :| SiteFailsOver(s, step.reason, s', from, to);
      EntryAdded(s.log, Entry("site", from, to, step.reason), t);
    }
  }

  predicate QuietAt(states: seq<State>, steps: seq<Step>, t: string, a: string, k: nat)
    requires k < |steps| < |states|
  {
    a in states[k].nfs ==> Quiet(states[k], steps[k], t, a)
  }

  lemma QuietStep(states: seq<State>, steps: seq<Step>, t: string, a: string, k: nat)
    requires Run(states, steps) && k < |steps| && t != "" && Leads(states[k].nfs, t, a) && QuietAt(states, steps, t, a, k)
    ensures Leads(states[k + 1].nfs, t, a) && EntriesOf(states[k + 1].log, t) == EntriesOf(states[k].log, t)
  {
    RunValid(states, steps, k);
    assert NextAt(states, steps, k);
    QuietKeepsLead(states[k], steps[k], states[k + 1], t, a);
    QuietKeepsEntries(states[k], steps[k], states[k + 1], t, a);
  }

  lemma {:induction false} QuietRun(states: seq<State>, steps: seq<Step>, t: string, a: string, i: nat, n: nat)
    requires Run(states, steps) && i <= n <= |steps| && t != "" && Leads(states[i].nfs, t, a)
    requires forall k :: i <= k < n ==> QuietAt(states, steps, t, a, k)
    ensures Leads(states[n].nfs, t, a) && EntriesOf(states[n].log, t) == EntriesOf(states[i].log, t)
    decreases n
  {
    if n == i {
    } else {
      QuietRun(states, steps, t, a, i, n - 1);
      QuietStep(states, steps, t, a, n - 1);
    }
  }

  // The instance the newest entry names as promoted.
  function LastTo(log: seq<Entry>): string {
    if log == [] then "" else log[|log| - 1].to
  }

  // A failover of t puts the instance it names in the lead.
  lemma FailoverLeads(s: State, step: Step, s': State, t: string) returns (e: Entry)
    requires Next(s, step, s') && FailsOverScope(s, step, t)
    ensures Leads(s'.nfs, t, LastTo(s'.log))
    ensures e.to == LastTo(s'.log) && EntriesOf(s'.log, t) == EntriesOf(s.log, t) + [e]
  {
    var from, to :| FailsOver(s, t, step.reason, s', from, to);
    FailoverLeavesOneActive(s, t, step.reason, s', from, to);
    e := Entry(t, from, to, step.reason);
    EntryAdded(s.log, e, t);
  }

  // A failover of t starts from the instance in the lead.
  lemma FailoverFromLead(s: State, step: Step, s': State, t: string, a: string) returns (e: Entry)
    requires Valid(s) && Next(s, step, s') && FailsOverScope(s, step, t) && Leads(s.nfs, t, a) && t != ""
    ensures e.from == a && EntriesOf(s'.log, t) == EntriesOf(s.log, t) + [e]
  {
    var from, to :| FailsOver(s, t, step.reason, s', from, to);
    e := Entry(t, from, to, step.reason);
    EntryAdded(s.log, e, t);
    assert ListLe(t, s.nfs[a], s.nfs[from]) && ListLe(t, s.nfs[from], s.nfs[a]);
  }

  lemma FirstOfTwo(states: seq<State>, steps: seq<Step>, t: string, i: nat) returns (e: Entry)
    requires Run(states, steps) && i < |steps| && FailsOverScope(states[i], steps[i], t)
    ensures Leads(states[i + 1].nfs, t, LastTo(states[i + 1].log)) && e.to == LastTo(states[i + 1].log)
    ensures EntriesOf(states[i + 1].log, t) == EntriesOf(states[i].log, t) + [e]
  {
    assert NextAt(states, steps, i);
    e := FailoverLeads(states[i], steps[i], states[i + 1], t);
  }

  lemma SecondOfTwo(states: seq<State>, steps: seq<Step>, t: string, j: nat, a: string) returns (e: Entry)
    requires Run(states, steps) && j < |steps| && FailsOverScope(states[j], steps[j], t)
    requires Leads(states[j].nfs, t, a) && t != ""
    ensures e.from == a && EntriesOf(states[j + 1].log, t) == EntriesOf(states[j].log, t) + [e]
  {
    assert NextAt(states, steps, j);
    RunValid(states, steps, j);
    e := FailoverFromLead(states[j], steps[j], states[j + 1], t, a);
  }

  // The failovers of one type chain: when the steps between two of them are quiet for the instance a that the
  // first promoted, their entries are consecutive entries of the type, and the second starts from a.
  lemma FailoverLogChains(states: seq<State>, steps: seq<Step>, t: string, i: nat, j: nat, a: string)
    returns (e: Entry, e': Entry)
    requires Run(states, steps) && i < j < |steps| && t != ""
    requires FailsOverScope(states[i], steps[i], t) && FailsOverScope(states[j], steps[j], t)
    requires a == LastTo(states[i + 1].log)
    requires forall k :: i < k < j ==> QuietAt(states, steps, t, a, k)
    ensures e.to == a && e'.from == a
    ensures EntriesOf(states[j + 1].log, t) == EntriesOf(states[i].log, t) + [e, e']
  {
    e := FirstOfTwo(states, steps, t, i);
    QuietRun(states, steps, t, a, i + 1, j);
    e' := SecondOfTwo(states, steps, t, j, a);
    var before := EntriesOf(states[i].log, t);
    assert before + [e] + [e'] == before + [e, e'];
  }

  // ---- Failing over every type at once ----

  // An empty type fails over all types together: it demotes the active instance of a type whose standby it
  // does not promote, and that type has no active instance left.
  lemma EmptyTypeFailsOverAll()
    ensures var s := State(map["amf" := Nf(1, "AMF", 1, Active, Healthy), "smf" := Nf(2, "SMF", 1, Standby, Healthy)],
                           3, map[], 1, []);
      && Valid(s) && Actives(s.nfs, "AMF") == {"amf"}
      && (exists s', from, to :: FailsOver(s, "", "x", s', from, to))
      && (forall s', from, to :: FailsOver(s, "", "x", s', from, to) ==>
            Actives(s'.nfs, "AMF") == {} && s'.nfs["smf"] == Nf(2, "SMF", 1, Active, Healthy))
  {
    var s := State(map["amf" := Nf(1, "AMF", 1, Active, Healthy), "smf" := Nf(2, "SMF", 1, Standby, Healthy)], 3, map[], 1, []);
    assert Eligible(s.nfs, "") == {"smf"} && Actives(s.nfs, "") == {"amf"};
    assert FailsOver(s, "", "x", s.(nfs := Switched(s.nfs, "", "smf"), log := [Entry("", "amf", "smf", "x")]), "amf", "smf");
  }

  // What a failover of t does to another type: nothing, unless it is over all types; then the type of the
  // promoted instance has that one active and every other type none. So a type keeps its active instances
  // exactly when t is not empty, or when it has none and does not get the promoted one.
  lemma OtherTypesKeepTheirs(s: State, t: string, reason: string, s': State, from: string, to: string, other: string)
    requires FailsOver(s, t, reason, s', from, to) && other != "" && other != t
    ensures t != "" ==> Actives(s'.nfs, other) == Actives(s.nfs, other)
    ensures t == "" ==> Actives(s'.nfs, other) == if s.nfs[to].nfType == other then {to} else {}
    ensures Actives(s'.nfs, other) == Actives(s.nfs, other) <==>
            t != "" || (Actives(s.nfs, other) == {} && s.nfs[to].nfType != other)
  {
    FailoverLeavesOneActive(s, t, reason, s', from, to);
    assert forall a :: a in s'.nfs ==> s'.nfs[a].nfType == s.nfs[a].nfType;
    if t == "" {
      assert forall a :: a in Actives(s'.nfs, other) ==> a in Actives(s'.nfs, t);
      assert to !in Actives(s.nfs, other);
    }
  }

  // ---- The store ----

  lemma SwitchedOnce(nfs: map<string, Nf>, done: map<string, Nf>, t: string, to: string)
    requires Chosen(nfs, t, to) && Demoted(nfs, done, Actives(nfs, t))
    ensures done[to := done[to].(role := Active)] == Switched(nfs, t, to)
  {
  }

  predicate PairLe(t: string, a: (string, Nf), b: (string, Nf)) {
    ListLe(t, a.1, b.1)
  }

  // The active instances of a list, and its available standbys, in the list's order.
  ghost predicate IsSplit(t: string, list: seq<(string, Nf)>, active: seq<(string, Nf)>, standby: seq<(string, Nf)>) {
    && (forall x :: x in active <==> x in list && x.1.role == Active)
    && (forall x :: x in standby <==> x in list && x.1.role == Standby && x.1.health != Failed)
    && (forall i, j :: 0 <= i < j < |active| ==> PairLe(t, active[i], active[j]))
    && (forall i, j :: 0 <= i < j < |standby| ==> PairLe(t, standby[i], standby[j]))
  }

  method Split(t: string, list: seq<(string, Nf)>) returns (active: seq<(string, Nf)>, standby: seq<(string, Nf)>)
    requires forall i, j :: 0 <= i < j < |list| ==> PairLe(t, list[i], list[j])
    ensures IsSplit(t, list, active, standby)
  {
    active, standby := [], [];
    for i := 0 to |list|
      invariant IsSplit(t, list[..i], active, standby)
    {
      assert list[..i + 1] == list[..i] + [list[i]];
      if list[i].1.role == Active {
        active := active + [list[i]];
      }
      if list[i].1.role == Standby && list[i].1.health != Failed {
        standby := standby + [list[i]];
      }
    }
    assert list[..|list|] == list;
  }

  // The index of the highest priority, and of those the first.
  ghost predicate IsBest(standby: seq<(string, Nf)>, best: nat) {
    && best < |standby|
    && (forall k :: 0 <= k < |standby| ==> standby[k].1.priority <= standby[best].1.priority)
    && (forall k :: 0 <= k < best ==> standby[k].1.priority < standby[best].1.priority)
  }

  method Best(t: string, standby: seq<(string, Nf)>) returns (best: nat)
    requires standby != []
    ensures IsBest(standby, best)
  {
    best := 0;
    for k := 1 to |standby|
      invariant best < k
      invariant forall m :: 0 <= m < k ==> standby[m].1.priority <= standby[best].1.priority
      invariant forall m :: 0 <= m < best ==> standby[m].1.priority < standby[best].1.priority
    {
      if standby[k].1.priority > standby[best].1.priority {
        best := k;
      }
    }
  }

  // What the split of a scope's list says about the table.
  lemma ScopeListed(nfs: map<string, Nf>, t: string, list: seq<(string, Nf)>,
                    active: seq<(string, Nf)>, standby: seq<(string, Nf)>)
    requires forall x :: x in list <==> x.0 in nfs && nfs[x.0] == x.1 && InScope(t, x.1)
    requires IsSplit(t, list, active, standby)
    ensures forall a :: a in Actives(nfs, t) <==> a in nfs && (a, nfs[a]) in active
    ensures forall a :: a in Eligible(nfs, t) <==> a in nfs && (a, nfs[a]) in standby
    ensures forall k :: 0 <= k < |active| ==> active[k].0 in nfs && active[k].1 == nfs[active[k].0]
    ensures forall k :: 0 <= k < |standby| ==> standby[k].0 in nfs && standby[k].1 == nfs[standby[k].0]
  {
  }

  lemma FirstServes(nfs: map<string, Nf>, t: string, active: seq<(string, Nf)>)
    requires forall a :: a in Actives(nfs, t) <==> a in nfs && (a, nfs[a]) in active
    requires forall k :: 0 <= k < |active| ==> active[k].0 in nfs && active[k].1 == nfs[active[k].0]
    requires forall i, j :: 0 <= i < j < |active| ==> PairLe(t, active[i], active[j])
    ensures Serving(nfs, t, if active == [] then "" else active[0].0)
  {
    if active == [] {
      assert Actives(nfs, t) == {};
    } else {
      assert (active[0].0, nfs[active[0].0]) in active;
      forall a | a in Actives(nfs, t) ensures ListLe(t, nfs[active[0].0], nfs[a]) {
        var k :| 0 <= k < |active| && active[k] == (a, nfs[a]);
        assert k == 0 || PairLe(t, active[0], active[k]);
      }
    }
  }

  lemma BestIsChosen(nfs: map<string, Nf>, t: string, standby: seq<(string, Nf)>, best: nat)
    requires forall a :: a in Eligible(nfs, t) <==> a in nfs && (a, nfs[a]) in standby
    requires forall k :: 0 <= k < |standby| ==> standby[k].0 in nfs && standby[k].1 == nfs[standby[k].0]
    requires forall i, j :: 0 <= i < j < |standby| ==> PairLe(t, standby[i], standby[j])
    requires IsBest(standby, best)
    ensures Chosen(nfs, t, standby[best].0)
  {
    var to := standby[best].0;
    assert (to, nfs[to]) in standby;
    forall a | a in Eligible(nfs, t)
      ensures nfs[to].priority > nfs[a].priority || (nfs[to].priority == nfs[a].priority && ListLe(t, nfs[to], nfs[a]))
    {
      var k :| 0 <= k < |standby| && standby[k] == (a, nfs[a]);
      assert k <= best || PairLe(t, standby[best], standby[k]);
    }
  }

  ghost predicate Demoted(nfs: map<string, Nf>, done: map<string, Nf>, which: set<string>) {
    && done.Keys == nfs.Keys
    && forall a :: a in nfs ==> done[a] == if a in which then nfs[a].(role := Standby, health := Failed) else nfs[a]
  }

  method Demote(nfs: map<string, Nf>, t: string, active: seq<(string, Nf)>) returns (done: map<string, Nf>)
    requires forall a :: a in Actives(nfs, t) <==> a in nfs && (a, nfs[a]) in active
    requires forall k :: 0 <= k < |active| ==> active[k].0 in nfs && active[k].1 == nfs[active[k].0]
    ensures Demoted(nfs, done, Actives(nfs, t))
  {
    done := nfs;
    ghost var which := {};
    for i := 0 to |active|
      invariant Demoted(nfs, done, which) && which <= Actives(nfs, t)
      invariant forall k :: 0 <= k < i ==> active[k].0 in which
    {
      assert (active[i].0, nfs[active[i].0]) in active;
      done := done[active[i].0 := done[active[i].0].(role := Standby, health := Failed)];
      which := which + {active[i].0};
    }
    forall a | a in Actives(nfs, t)
      ensures a in which
    {
      var k :| 0 <= k < |active| && active[k] == (a, nfs[a]);
    }
    assert which == Actives(nfs, t);
  }

  method SwitchNfs(nfs: map<string, Nf>, t: string, list: seq<(string, Nf)>)
    returns (done: Option<map<string, Nf>>, from: string, to: string)
    requires forall x :: x in list <==> x.0 in nfs && nfs[x.0] == x.1 && InScope(t, x.1)
    requires forall i, j :: 0 <= i < j < |list| ==> PairLe(t, list[i], list[j])
    ensures done.Some? <==> Eligible(nfs, t) != {}
    ensures done.Some? ==> Chosen(nfs, t, to) && Serving(nfs, t, from) && done.value == Switched(nfs, t, to)
  {
    var active, standby := Split(t, list);
    ScopeListed(nfs, t, list, active, standby);
    if standby == [] { return None, "", ""; }
    FirstServes(nfs, t, active);
    var best := Best(t, standby);
    BestIsChosen(nfs, t, standby, best);
    from, to := if active == [] then "" else active[0].0, standby[best].0;
    var demoted := Demote(nfs, t, active);
    SwitchedOnce(nfs, demoted, t, to);
    done := Some(demoted[to := demoted[to].(role := Active)]);
  }

  predicate SiteLe(a: (string, Site), b: (string, Site)) {
    a.1.id <= b.1.id
  }

  ghost predicate IsSiteSplit(list: seq<(string, Site)>, active: seq<(string, Site)>, standby: seq<(string, Site)>) {
    && (forall x :: x in active <==> x in list && x.1.role == ActiveSite)
    && (forall x :: x in standby <==> x in list && x.1.role == StandbySite && x.1.status == Online)
    && (forall i, j :: 0 <= i < j < |active| ==> SiteLe(active[i], active[j]))
    && (forall i, j :: 0 <= i < j < |standby| ==> SiteLe(standby[i], standby[j]))
  }

  method SplitSites(list: seq<(string, Site)>) returns (active: seq<(string, Site)>, standby: seq<(string, Site)>)
    requires forall i, j :: 0 <= i < j < |list| ==> SiteLe(list[i], list[j])
    ensures IsSiteSplit(list, active, standby)
  {
    active, standby := [], [];
    for i := 0 to |list|
      invariant IsSiteSplit(list[..i], active, standby)
    {
      assert list[..i + 1] == list[..i] + [list[i]];
      if list[i].1.role == ActiveSite {
        active := active + [list[i]];
      }
      if list[i].1.role == StandbySite && list[i].1.status == Online {
        standby := standby + [list[i]];
      }
    }
    assert list[..|list|] == list;
  }

  lemma SitesListed(sites: map<string, Site>, list: seq<(string, Site)>,
                    active: seq<(string, Site)>, standby: seq<(string, Site)>)
    requires forall x :: x in list <==> x.0 in sites && sites[x.0] == x.1
    requires IsSiteSplit(list, active, standby)
    ensures forall a :: a in ActiveSites(sites) <==> a in sites && (a, sites[a]) in active
    ensures forall a :: a in OnlineStandbys(sites) <==> a in sites && (a, sites[a]) in standby
    ensures forall k :: 0 <= k < |active| ==> active[k].0 in sites && active[k].1 == sites[active[k].0]
    ensures forall k :: 0 <= k < |standby| ==> standby[k].0 in sites && standby[k].1 == sites[standby[k].0]
    ensures FirstOf(sites, ActiveSites(sites), if active == [] then "" else active[0].0)
    ensures FirstOf(sites, OnlineStandbys(sites), if standby == [] then "" else standby[0].0)
  {
  }

  ghost predicate SitesDemoted(sites: map<string, Site>, done: map<string, Site>, which: set<string>) {
    && done.Keys == sites.Keys
    && forall a :: a in sites ==> done[a] == if a in which then sites[a].(role := StandbySite, status := FailedOver) else sites[a]
  }

  method DemoteSites(sites: map<string, Site>, active: seq<(string, Site)>) returns (done: map<string, Site>)
    requires forall a :: a in ActiveSites(sites) <==> a in sites && (a, sites[a]) in active
    requires forall k :: 0 <= k < |active| ==> active[k].0 in sites && active[k].1 == sites[active[k].0]
    ensures SitesDemoted(sites, done, ActiveSites(sites))
  {
    done := sites;
    ghost var which := {};
    for i := 0 to |active|
      invariant SitesDemoted(sites, done, which) && which <= ActiveSites(sites)
      invariant forall k :: 0 <= k < i ==> active[k].0 in which
    {
      assert (active[i].0, sites[active[i].0]) in active;
      done := done[active[i].0 := done[active[i].0].(role := StandbySite, status := FailedOver)];
      which := which + {active[i].0};
    }
    forall a | a in ActiveSites(sites)
      ensures a in which
    {
      var k :| 0 <= k < |active| && active[k] == (a, sites[a]);
    }
    assert which == ActiveSites(sites);
  }

  lemma SitesSwitchedOnce(sites: map<string, Site>, done: map<string, Site>, to: string)
    requires to in OnlineStandbys(sites) && SitesDemoted(sites, done, ActiveSites(sites))
    ensures done[to := done[to].(role := ActiveSite, status := Online)] == SitesSwitched(sites, to)
  {
  }

  method SwitchSites(sites: map<string, Site>) returns (done: Option<map<string, Site>>, from: string, to: string)
    ensures done.Some? <==> OnlineStandbys(sites) != {}
    ensures done.Some? ==> FirstOf(sites, OnlineStandbys(sites), to) && FirstOf(sites, ActiveSites(sites), from)
    ensures done.Some? ==> done.value == SitesSwitched(sites, to)
  {
    assert TotalOrder(SiteLe);
    var list := OrderBy(set a | a in sites :: (a, sites[a]), SiteLe);
    var active, standby := SplitSites(list);
    assert forall x :: x in list <==> x.0 in sites && sites[x.0] == x.1;
    SitesListed(sites, list, active, standby);
    if standby == [] { return None, "", ""; }
    from, to := if active == [] then "" else active[0].0, standby[0].0;
    var demoted := DemoteSites(sites, active);
    SitesSwitchedOnce(sites, demoted, to);
    done := Some(demoted[to := demoted[to].(role := ActiveSite, status := Online)]);
  }

  class Registry {
    var nfs: map<string, Nf>
    var nextNf: int
    var sites: map<string, Site>
    var nextSite: int
    var log: seq<Entry>

    ghost function Now(): State
      reads this
    {
      State(nfs, nextNf, sites, nextSite, log)
    }

    constructor ()
      ensures Now() == State(map[], 1, map[], 1, []) && Valid(Now())
    {
      nfs, nextNf, sites, nextSite, log := map[], 1, map[], 1, [];
    }

    method RegisterNFInstance(nfType: string, instanceId: string, priority: int, role: string) returns (ok: bool)
      modifies this
      ensures Next(old(Now()), Register(nfType, instanceId, priority, role), Now())
      ensures ok <==> role in {"active", "standby"} && instanceId !in old(nfs)
      ensures !ok ==> unchanged(this)
      ensures ok ==> nextNf == old(nextNf) + 1 && sites == old(sites) && nextSite == old(nextSite) && log == old(log)
      ensures ok ==> nfs == old(nfs)[instanceId := Nf(old(nextNf), nfType, priority,
                                                      if role == "active" then Active else Standby, Healthy)]
    {
      if role != "active" && role != "standby" { return false; }
      if instanceId in nfs { return false; }
      nfs := nfs[instanceId := Nf(nextNf, nfType, priority, if role == "active" then Active else Standby, Healthy)];
      nextNf := nextNf + 1;
      ok := true;
    }

    // nfUpdate of the health column.
    method SetHealth(instanceId: string, h: Health) returns (found: bool)
      modifies this`nfs
      ensures nfs == WithHealth(old(nfs), instanceId, h) && (found <==> instanceId in old(nfs))
    {
      found := instanceId in nfs;
      if found {
        nfs := nfs[instanceId := nfs[instanceId].(health := h)];
      }
    }

    method RecordHeartbeat(instanceId: string) returns (found: bool)
      modifies this`nfs
      ensures Next(old(Now()), Heartbeat(instanceId), Now()) && (found <==> instanceId in old(nfs))
      ensures nfs == if found then old(nfs)[instanceId := old(nfs)[instanceId].(health := Healthy)] else old(nfs)
    {
      found := SetHealth(instanceId, Healthy);
    }

    method MarkFailed(instanceId: string) returns (found: bool)
      modifies this`nfs
      ensures Next(old(Now()), DetectFailure(instanceId), Now()) && (found <==> instanceId in old(nfs))
      ensures nfs == if found then old(nfs)[instanceId := old(nfs)[instanceId].(health := Failed)] else old(nfs)
    {
      found := SetHealth(instanceId, Failed);
    }

    method Delete(instanceId: string) returns (found: bool)
      modifies this`nfs
      ensures Next(old(Now()), NfDelete(instanceId), Now()) && (found <==> instanceId in old(nfs))
      ensures nfs == old(nfs) - {instanceId}
    {
      found := instanceId in nfs;
      nfs := nfs - {instanceId};
    }

    method NFList(t: string) returns (list: seq<(string, Nf)>)
      ensures Ordered(set a | a in nfs && InScope(t, nfs[a]) :: (a, nfs[a]), ByListing(t), list)
      ensures forall x :: x in list <==> x.0 in nfs && nfs[x.0] == x.1 && (t == "" || x.1.nfType == t)
      ensures forall i, j :: 0 <= i < j < |list| ==> Listed(t, list[i].1, list[j].1)
    {
      ListOrder(t);
      list := OrderBy(set a | a in nfs && InScope(t, nfs[a]) :: (a, nfs[a]), ByListing(t));
    }

    method GetActiveInstance(t: string) returns (a: Option<string>)
      ensures a.None? <==> Actives(nfs, t) == {}
      ensures a.Some? ==> Serving(nfs, t, a.value)
      ensures a.None? ==> forall b :: b in nfs && (t == "" || nfs[b].nfType == t) ==> nfs[b].role != Active
      ensures a.Some? ==> a.value in nfs && (t == "" || nfs[a.value].nfType == t) && nfs[a.value].role == Active
      ensures a.Some? ==> forall b :: b in nfs && (t == "" || nfs[b].nfType == t) && nfs[b].role == Active ==>
                                        Listed(t, nfs[a.value], nfs[b])
    {
      var list := NFList(t);
      for i := 0 to |list|
        invariant forall k :: 0 <= k < i ==> list[k].1.role != Active
      {
        if list[i].1.role == Active {
          assert list[i].0 in Actives(nfs, t);
          forall b | b in Actives(nfs, t)
            ensures ListLe(t, nfs[list[i].0], nfs[b])
          {
            assert (b, nfs[b]) in list;
            var k :| 0 <= k < |list| && list[k] == (b, nfs[b]);
          }
          return Some(list[i].0);
        }
      }
      forall b | b in nfs && InScope(t, nfs[b])
        ensures nfs[b].role != Active
      {
        assert (b, nfs[b]) in list;
      }
      a := None;
    }

    // Failover: promote the best available standby, after demoting whatever is active.
    method FailOver(t: string, reason: string) returns (r: Option<(string, string)>)
      requires Valid(Now())
      modifies this
      ensures Next(old(Now()), Failover(t, reason), Now()) && Valid(Now())
      ensures r.Some? <==> Eligible(old(nfs), t) != {}
      ensures r.None? ==> unchanged(this)
      ensures r.None? ==> forall a :: a in nfs && (t == "" || nfs[a].nfType == t) && nfs[a].role == Standby ==>
                                        nfs[a].health == Failed
      ensures r.Some? ==> FailsOver(old(Now()), t, reason, Now(), r.value.0, r.value.1)
    {
      var list := NFList(t);
      assert forall x :: x in list <==> x.0 in nfs && nfs[x.0] == x.1 && InScope(t, x.1);
      var x, from, to := SwitchNfs(nfs, t, list);
      if x.None? {
        NoneEligible(nfs, t);
        return None;
      }
      nfs := x.value;
      log := log + [Entry(t, from, to, reason)];
      FailoverIsStep(old(Now()), t, reason, Now(), from, to);
      r := Some((from, to));
    }

    method AddSite(name: string, role: string) returns (ok: bool)
      modifies this
      ensures Next(old(Now()), RegisterSite(name, role), Now())
      ensures ok <==> role in {"active", "standby", "dr_site"} && name !in old(sites)
      ensures !ok ==> unchanged(this)
      ensures ok ==> nextSite == old(nextSite) + 1 && nfs == old(nfs) && nextNf == old(nextNf) && log == old(log)
      ensures ok ==> sites == old(sites)[name := Site(old(nextSite), if role == "active" then ActiveSite
                                                      else if role == "standby" then StandbySite else DrSite, Online)]
    {
      if role != "active" && role != "standby" && role != "dr_site" { return false; }
      if name in sites { return false; }
      var r := if role == "active" then ActiveSite else if role == "standby" then StandbySite else DrSite;
      sites := sites[name := Site(nextSite, r, Online)];
      nextSite := nextSite + 1;
      ok := true;
    }

    method DeleteSite(name: string) returns (found: bool)
      modifies this`sites
      ensures Next(old(Now()), SiteDelete(name), Now()) && (found <==> name in old(sites))
      ensures sites == old(sites) - {name}
    {
      found := name in sites;
      sites := sites - {name};
    }

    // TriggerSiteFailover: promote the online standby of lowest id.
    method FailOverSite(reason: string) returns (r: Option<(string, string)>)
      requires Valid(Now())
      modifies this
      ensures Next(old(Now()), SiteFailover(reason), Now()) && Valid(Now())
      ensures r.Some? <==> OnlineStandbys(old(sites)) != {}
      ensures r.None? ==> unchanged(this)
      ensures r.None? ==> forall a :: a in sites && sites[a].role == StandbySite ==> sites[a].status != Online
      ensures r.Some? ==> SiteFailsOver(old(Now()), reason, Now(), r.value.0, r.value.1)
    {
      var x, from, to := SwitchSites(sites);
      if x.None? {
        NoneOnline(sites);
        return None;
      }
      sites := x.value;
      log := log + [Entry("site", from, to, reason)];
      SiteFailoverIsStep(old(Now()), reason, Now(), from, to);
      r := Some((from, to));
    }
  }
}
