/** The list of things the spawner goroutine of `connect` does, in order: for every
    credential it either reports an error or starts dial attempts
    (api/client/client.go:309-369). */
module DialPlan {
  import opened Counting
  import opened Options

  type Error = string

  datatype TlsOutcome = TlsReady | TlsError(error: Error)

  /** `SSHClientConfig`; a credential may not implement it, which is not an error and
      leaves an empty configuration. */
  datatype SshOutcome = SshReady(empty: bool) | SshNotImplemented | SshError(error: Error)

  /** Whether a credential is a `CredentialsWithDefaultAddrs`, and what it answers. */
  datatype DefaultAddrs = NoDefaultAddrs | Addrs(addrs: seq<string>) | AddrsError(error: Error)

  datatype Credential = Credential(tls: TlsOutcome, ssh: SshOutcome, defaults: DefaultAddrs)

  datatype Config = Config(credentials: seq<Credential>, hasDialer: bool, addrs: seq<string>)

  datatype Method = ViaDialer | ViaAuth | ViaProxy | ViaTunnel | ViaTlsRouting | ViaTlsRoutingUpgrade

  /** One iteration effect of the spawner: an error sent to `errChan`, or `syncConnect` with
      one of the credentials. */
  datatype Action = Report(error: Error) | Spawn(credential: nat, how: Method, addr: string)

  predicate SshEmpty(ssh: SshOutcome) {
    ssh.SshNotImplemented? || (ssh.SshReady? && ssh.empty)
  }

  function AddrActions(k: nat, addr: string, sshEmpty: bool): seq<Action> {
    [Spawn(k, ViaAuth, addr)] +
    if sshEmpty then [] else
      [Spawn(k, ViaProxy, addr), Spawn(k, ViaTunnel, addr),
       Spawn(k, ViaTlsRouting, addr), Spawn(k, ViaTlsRoutingUpgrade, addr)]
  }

  function AddrsActions(k: nat, addrs: seq<string>, sshEmpty: bool): seq<Action> {
    if addrs == [] then [] else AddrActions(k, addrs[0], sshEmpty) + AddrsActions(k, addrs[1..], sshEmpty)
  }

  /** The addresses tried with a credential: those given, else the credential's own. */
  function AddrsFor(cfg: Config, c: Credential): seq<string> {
    if cfg.addrs == [] && c.defaults.Addrs? then c.defaults.addrs else cfg.addrs
  }

  function DialerActions(cfg: Config, k: nat): seq<Action> {
    if cfg.hasDialer then [Spawn(k, ViaDialer, "")] else []
  }

  /** The pass of the loop for credential `k`. A credential whose default addresses cannot be
      found has already started its dialer attempt by then. */
  function CredentialActions(cfg: Config, k: nat): seq<Action>
    requires k < |cfg.credentials|
  {
    var c := cfg.credentials[k];
    if c.tls.TlsError? then [Report(c.tls.error)]
    else if c.ssh.SshError? then [Report(c.ssh.error)]
    else
      DialerActions(cfg, k) +
      if cfg.addrs == [] && c.defaults.AddrsError? then [Report(c.defaults.error)]
      else AddrsActions(k, AddrsFor(cfg, c), SshEmpty(c.ssh))
  }

  /** What the loop does from credential `k` on. */
  function PlanFrom(cfg: Config, k: nat): seq<Action>
    decreases |cfg.credentials| - k
  {
    if k >= |cfg.credentials| then [] else CredentialActions(cfg, k) + PlanFrom(cfg, k + 1)
  }

  function Plan(cfg: Config): seq<Action> {
    PlanFrom(cfg, 0)
  }

  /** A credential that neither fails nor offers any way to connect. */
  predicate Fruitless(cfg: Config, c: Credential) {
    && c.tls.TlsReady? && !c.ssh.SshError?
    && !cfg.hasDialer && cfg.addrs == []
    && (c.defaults.NoDefaultAddrs? || (c.defaults.Addrs? && c.defaults.addrs == []))
  }

  /** The credentials from `k` on. */
  function From(cfg: Config, k: nat): seq<Credential> {
    if k < |cfg.credentials| then cfg.credentials[k..] else []
  }

  lemma FromNext(cfg: Config, k: nat)
    requires k < |cfg.credentials|
    ensures From(cfg, k) == [cfg.credentials[k]] + From(cfg, k + 1)
  {}

  lemma {:induction false} PlanFromEmpty(cfg: Config, k: nat)
    ensures PlanFrom(cfg, k) == [] <==> forall c :: c in From(cfg, k) ==> Fruitless(cfg, c)
    decreases |cfg.credentials| - k
  {
    if k < |cfg.credentials| {
      PlanFromEmpty(cfg, k + 1);
      FromNext(cfg, k);
      assert CredentialActions(cfg, k) == [] <==> Fruitless(cfg, cfg.credentials[k]);
    }
  }

  /** There is nothing to try exactly when every credential is fruitless. In particular a
      configuration with a credential and a dialer or an address always has something. */
  lemma EmptyPlan(cfg: Config)
    ensures Plan(cfg) == [] <==> forall c :: c in cfg.credentials ==> Fruitless(cfg, c)
    ensures cfg.credentials != [] && (cfg.hasDialer || cfg.addrs != []) ==> Plan(cfg) != []
  {
    PlanFromEmpty(cfg, 0);
    if cfg.credentials != [] {
      assert cfg.credentials[0] in cfg.credentials;
    }
  }

  // ---------- All combinations ----------

  /** How often a credential is to be tried in a given way: once with the dialer, once per
      mention of the address as an auth server, and with an SSH configuration as often in each
      of the four other ways. */
  function Attempts(cfg: Config, c: Credential, how: Method, addr: string): nat {
    if c.tls != TlsReady || c.ssh.SshError? then 0
    else if how == ViaDialer then (if cfg.hasDialer && addr == "" then 1 else 0)
    else if how != ViaAuth && c.ssh != SshReady(false) then 0
    else if cfg.addrs != [] then Count(cfg.addrs, addr)
    else if c.defaults.Addrs? then Count(c.defaults.addrs, addr)
    else 0
  }

  lemma {:induction false} AddrsActionsCount(
    k: nat, addrs: seq<string>, sshEmpty: bool, j: nat, how: Method, addr: string)
    ensures Count(AddrsActions(k, addrs, sshEmpty), Spawn(j, how, addr))
      == if j != k || how == ViaDialer || (how != ViaAuth && sshEmpty) then 0 else Count(addrs, addr)
  {
    if addrs != [] {
      AddrsActionsCount(k, addrs[1..], sshEmpty, j, how, addr);
      CountConcat(AddrActions(k, addrs[0], sshEmpty), AddrsActions(k, addrs[1..], sshEmpty), Spawn(j, how, addr));
      CountOnce(AddrActions(k, addrs[0], sshEmpty), Spawn(j, how, addr));
    }
  }

  lemma DialerCount(cfg: Config, k: nat, x: Action)
    ensures Count(DialerActions(cfg, k), x) == if cfg.hasDialer && x == Spawn(k, ViaDialer, "") then 1 else 0
  {
    CountOnce(DialerActions(cfg, k), x);
  }

  lemma CredentialActionsCount(cfg: Config, k: nat, j: nat, how: Method, addr: string)
    requires k < |cfg.credentials|
    ensures Count(CredentialActions(cfg, k), Spawn(j, how, addr))
      == if j == k then Attempts(cfg, cfg.credentials[k], how, addr) else 0
  {
    var c, x := cfg.credentials[k], Spawn(j, how, addr);
    DialerCount(cfg, k, x);
    if c.tls.TlsError? || c.ssh.SshError? {
      CountOnce(CredentialActions(cfg, k), x);
    } else if cfg.addrs == [] && c.defaults.AddrsError? {
      var reports := [Report(c.defaults.error)];
      CountConcat(DialerActions(cfg, k), reports, x);
      CountOnce(reports, x);
    } else {
      var rest := AddrsActions(k, AddrsFor(cfg, c), SshEmpty(c.ssh));
      CountConcat(DialerActions(cfg, k), rest, x);
      AddrsActionsCount(k, AddrsFor(cfg, c), SshEmpty(c.ssh), j, how, addr);
    }
  }

  lemma {:induction false} PlanFromCount(cfg: Config, k: nat, j: nat, how: Method, addr: string)
    ensures Count(PlanFrom(cfg, k), Spawn(j, how, addr))
      == if k <= j < |cfg.credentials| then Attempts(cfg, cfg.credentials[j], how, addr) else 0
    decreases |cfg.credentials| - k
  {
    if k < |cfg.credentials| {
      var x, head, tail := Spawn(j, how, addr), CredentialActions(cfg, k), PlanFrom(cfg, k + 1);
      assert Count(head, x) == if j == k then Attempts(cfg, cfg.credentials[k], how, addr) else 0 by {
        CredentialActionsCount(cfg, k, j, how, addr);
      }
      PlanFromCount(cfg, k + 1, j, how, addr);
      CountConcat(head, tail, x);
    }
  }

  /** All combinations of credentials, addresses and methods are attempted, each as often as it
      is to be, and no others. */
  lemma AllCombinations(cfg: Config, j: nat, how: Method, addr: string)
    ensures Count(Plan(cfg), Spawn(j, how, addr))
      == if j < |cfg.credentials| then Attempts(cfg, cfg.credentials[j], how, addr) else 0
  {
    PlanFromCount(cfg, 0, j, how, addr);
  }

  // ---------- Reports ----------

  /** Where reports come from: a credential that fails, never an attempt. */
  predicate Broken(cfg: Config, c: Credential) {
    || c.tls.TlsError?
    || c.ssh.SshError?
    || (cfg.addrs == [] && c.defaults.AddrsError?)
  }

  predicate NoReports(plan: seq<Action>) {
    forall i :: 0 <= i < |plan| ==> plan[i].Spawn?
  }

  lemma {:induction false} AddrsActionsSpawn(k: nat, addrs: seq<string>, sshEmpty: bool)
    ensures NoReports(AddrsActions(k, addrs, sshEmpty))
  {
    if addrs != [] {
      AddrsActionsSpawn(k, addrs[1..], sshEmpty);
    }
  }

  lemma CredentialReports(cfg: Config, k: nat)
    requires k < |cfg.credentials|
    ensures NoReports(CredentialActions(cfg, k)) <==> !Broken(cfg, cfg.credentials[k])
  {
    var c, actions := cfg.credentials[k], CredentialActions(cfg, k);
    if Broken(cfg, c) {
      assert actions[|actions| - 1].Report?;
    } else {
      AddrsActionsSpawn(k, AddrsFor(cfg, c), SshEmpty(c.ssh));
    }
  }

  lemma ConcatReports(a: seq<Action>, b: seq<Action>)
    ensures NoReports(a + b) <==> NoReports(a) && NoReports(b)
  {
    if NoReports(a + b) {
      assert forall i :: 0 <= i < |a| ==> a[i] == (a + b)[i];
      assert forall i :: 0 <= i < |b| ==> b[i] == (a + b)[|a| + i];
    }
  }

  lemma {:induction false} PlanFromReports(cfg: Config, k: nat)
    ensures NoReports(PlanFrom(cfg, k)) <==> forall c :: c in From(cfg, k) ==> !Broken(cfg, c)
    decreases |cfg.credentials| - k
  {
    if k < |cfg.credentials| {
      CredentialReports(cfg, k);
      PlanFromReports(cfg, k + 1);
      ConcatReports(CredentialActions(cfg, k), PlanFrom(cfg, k + 1));
      FromNext(cfg, k);
    }
  }

  /** The error of the first configuration that a credential fails to give. */
  function FailsWith(cfg: Config, c: Credential): Option<Error> {
    match c
    case Credential(TlsError(e), _, _) => Some(e)
    case Credential(TlsReady, SshError(e), _) => Some(e)
    case Credential(TlsReady, _, AddrsError(e)) => if cfg.addrs == [] then Some(e) else None
    case _ => None
  }

  function FailsIn(cfg: Config, p: Error -> bool): Credential -> nat {
    (c: Credential) => if FailsWith(cfg, c).Some? && p(FailsWith(cfg, c).value) then 1 else 0
  }

  function Reports(p: Error -> bool): Action -> nat {
    (a: Action) => if a.Report? && p(a.error) then 1 else 0
  }

  lemma SpawnsReportNothing(plan: seq<Action>, p: Error -> bool)
    requires NoReports(plan)
    ensures Sum(plan, Reports(p)) == 0
  {
    SumZero(plan, Reports(p));
  }

  lemma ReportOne(e: Error, p: Error -> bool)
    ensures Sum([Report(e)], Reports(p)) == if p(e) then 1 else 0
  {
    assert [Report(e)][1..] == [];
  }

  lemma CredentialFailure(cfg: Config, k: nat, p: Error -> bool)
    requires k < |cfg.credentials|
    ensures Sum(CredentialActions(cfg, k), Reports(p)) == FailsIn(cfg, p)(cfg.credentials[k])
  {
    var c := cfg.credentials[k];
    if c.tls.TlsError? {
      assert FailsWith(cfg, c) == Some(c.tls.error);
      ReportOne(c.tls.error, p);
    } else if c.ssh.SshError? {
      assert FailsWith(cfg, c) == Some(c.ssh.error);
      ReportOne(c.ssh.error, p);
    } else {
      SpawnsReportNothing(DialerActions(cfg, k), p);
      if cfg.addrs == [] && c.defaults.AddrsError? {
        assert FailsWith(cfg, c) == Some(c.defaults.error);
        ReportOne(c.defaults.error, p);
        SumConcat(DialerActions(cfg, k), [Report(c.defaults.error)], Reports(p));
      } else {
        var rest := AddrsActions(k, AddrsFor(cfg, c), SshEmpty(c.ssh));
        AddrsActionsSpawn(k, AddrsFor(cfg, c), SshEmpty(c.ssh));
        SpawnsReportNothing(rest, p);
        SumConcat(DialerActions(cfg, k), rest, Reports(p));
        assert FailsWith(cfg, c) == None;
      }
    }
  }

  lemma {:induction false} PlanFromFailures(cfg: Config, k: nat, p: Error -> bool)
    ensures Sum(PlanFrom(cfg, k), Reports(p)) == Sum(From(cfg, k), FailsIn(cfg, p))
    decreases |cfg.credentials| - k
  {
    if k < |cfg.credentials| {
      CredentialFailure(cfg, k, p);
      PlanFromFailures(cfg, k + 1, p);
      SumConcat(CredentialActions(cfg, k), PlanFrom(cfg, k + 1), Reports(p));
      FromNext(cfg, k);
      assert From(cfg, k)[1..] == From(cfg, k + 1);
    }
  }

  /** The spawner reports each failing credential once, with its first error. */
  lemma ReportsAreFailures(cfg: Config, p: Error -> bool)
    ensures Sum(Plan(cfg), Reports(p)) == Sum(cfg.credentials, FailsIn(cfg, p))
  {
    PlanFromFailures(cfg, 0, p);
    assert From(cfg, 0) == cfg.credentials;
  }
}
