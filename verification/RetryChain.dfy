/**
 How a request is handed from port to port (lib/rules.js:197-231, 345-379; lib/server.js:834-840, 971-980,
 1184-1204; lib/worker.js:301-310). Each hand-over raises `req.retry`, and its cause looks at `req.retry` first.
*/
module RetryChain {
  import opened Wrappers

  // ----- Settings ---------------------------------------------------------------------------------------

  /** A setting of a rule as JavaScript reads it: left out, a truth value or a number. */
  datatype Setting = Missing | Flag(on: bool) | Count(n: int)

  predicate Truthy(v: Setting) {
    v == Flag(true) || (v.Count? && v.n != 0)
  }

  /** `Number(v)`; what is left out is not a number. */
  function ToNumber(v: Setting): Option<int> {
    match v
    case Missing => None
    case Flag(on) => Some(if on then 1 else 0)
    case Count(n) => Some(n)
  }

  datatype Action = Action(retry: Setting, retryPort: nat, retries: Setting, retrySame: bool)

  /** `isMinConn`: the rule fires when a connection takes long, and its action is to retry. */
  datatype Rule = Rule(action: Action, isMinConn: bool)

  /** What the owner of a port has set. */
  datatype Config = Config(rules: seq<Rule>, maxBanRetries: nat)

  // ----- The guards -------------------------------------------------------------------------------------

  /** `can_retry` (lib/rules.js:221-231): the number of retries that an action allows. */
  function Allowed(action: Action): int {
    var retry := if ToNumber(action.retry).Some? then ToNumber(action.retry).value else 0;
    var capped := if retry > 3 then 3 else retry;
    var ported := if action.retryPort != 0 then 20 else capped;
    if Truthy(action.retries) then ToNumber(action.retries).value else ported
  }

  predicate CanRetry(action: Action, retried: nat) {
    retried < Allowed(action)
  }

  /** The guard at the end of `action` (lib/rules.js:345-352). A comparison with `NaN` is false and stops nothing. */
  predicate RuleGoesOn(rule: Rule, retried: nat) {
    if rule.isMinConn then
      var limit := ToNumber(rule.action.retry);
      limit.None? || retried < if limit.value < 5 then limit.value else 5
    else CanRetry(rule.action, retried)
  }

  /** `get_fake_retry` (lib/rules.js:361-379): a redirect is a retry of its own. */
  const FAKE_RETRY := Rule(Action(Flag(true), 0, Count(10), true), false)

  /** Why a server hands a request over. */
  datatype Cause =
    | RuleFired(rule: Rule)
    | Routed(port: nat)
    | ProxyFailed(proxyRetry: nat)
    | IpBanned
    | Redirected

  predicate GoesOn(config: Config, cause: Cause, retried: nat) {
    match cause
    case RuleFired(rule) => RuleGoesOn(rule, retried)
    case Routed(port) => retried == 0 && port != 0
    case ProxyFailed(proxyRetry) => CanRetry(Action(Count(proxyRetry), 0, Missing, false), retried)
    case IpBanned => retried < config.maxBanRetries
    case Redirected => RuleGoesOn(FAKE_RETRY, retried)
  }

  /** The port that is asked for; 0 is the server's own. */
  function PortOf(cause: Cause): nat {
    match cause
    case RuleFired(rule) => rule.action.retryPort
    case Routed(port) => port
    case _ => 0
  }

  // ----- The server in memory ---------------------------------------------------------------------------

  /** The event `retry`, as the worker gets it. */
  datatype Event = Event(port: nat, keepSession: bool)

  class Req {
    var retry: nat

    constructor ()
      ensures retry == 0
    {
      retry := 0;
    }
  }

  class Server {
    const port: nat
    const config: Config
    var sessionsRefreshed: nat

    constructor (p: nat, c: Config)
      ensures port == p && config == c && sessionsRefreshed == 0
    {
      port, config, sessionsRefreshed := p, c, 0;
    }

    /** `retry` (lib/rules.js:197-220). */
    method Retry(req: Req, action: Action) returns (event: Event)
      modifies req`retry, this`sessionsRefreshed
      ensures req.retry == old(req.retry) + 1
      ensures event == Event(if action.retryPort != 0 then action.retryPort else port, action.retrySame)
      ensures sessionsRefreshed == old(sessionsRefreshed) +
        if !action.retrySame && event.port == port then 1 else 0
    {
      if !action.retrySame && (action.retryPort == 0 || action.retryPort == port) {
        sessionsRefreshed := sessionsRefreshed + 1;
      }
      req.retry := req.retry + 1;
      event := Event(if action.retryPort != 0 then action.retryPort else port, action.retrySame);
    }

    /** What follows from a cause: the request goes on to one port with one more retry, or stays. */
    predicate HandedOver(before: nat, after: nat, cause: Cause, event: Option<Event>) {
      if GoesOn(config, cause, before) then
        after == before + 1 && event.Some? && event.value.port == if PortOf(cause) != 0 then PortOf(cause) else port
      else after == before && event.None?
    }

    /** The end of `action` (lib/rules.js:345-359). */
    method ActionTail(req: Req, rule: Rule) returns (event: Option<Event>)
      modifies req`retry, this`sessionsRefreshed
      ensures HandedOver(old(req.retry), req.retry, RuleFired(rule), event)
      ensures event.Some? ==> event.value.keepSession == rule.action.retrySame
      ensures sessionsRefreshed == old(sessionsRefreshed) +
        if event.Some? && !rule.action.retrySame && event.value.port == port then 1 else 0
    {
      if rule.isMinConn {
        var limit := ToNumber(rule.action.retry);
        if limit.Some? && req.retry >= if limit.value < 5 then limit.value else 5 {
          return None;
        }
      } else if !CanRetry(rule.action, req.retry) {
        return None;
      }
      var e := Retry(req, rule.action);
      event := Some(e);
    }

    /** `route_port` (lib/server.js:834-840). */
    method RoutePort(req: Req, hRoute: nat) returns (event: Option<Event>)
      modifies req`retry, this`sessionsRefreshed
      ensures HandedOver(old(req.retry), req.retry, Routed(hRoute), event)
      ensures event.Some? ==> !event.value.keepSession
    {
      if req.retry != 0 || hRoute == 0 {
        return None;
      }
      var e := Retry(req, Action(Missing, hRoute, Missing, false));
      event := Some(e);
    }

    /** The end of `redirect_req` (lib/server.js:971-980). */
    method RedirectReq(req: Req) returns (event: Option<Event>)
      modifies req`retry, this`sessionsRefreshed
      ensures HandedOver(old(req.retry), req.retry, Redirected, event)
      ensures event.Some? ==> event.value.keepSession
      ensures sessionsRefreshed == old(sessionsRefreshed)
    {
      event := ActionTail(req, FAKE_RETRY);
    }

    /** The retry after a failure that the proxy calls temporary (lib/server.js:1181-1190). */
    method ProxyError(req: Req, proxyRetry: nat, errRetry: bool) returns (event: Option<Event>)
      modifies req`retry, this`sessionsRefreshed
      ensures errRetry ==> HandedOver(old(req.retry), req.retry, ProxyFailed(proxyRetry), event)
      ensures !errRetry ==> req.retry == old(req.retry) && event.None?
      ensures sessionsRefreshed == old(sessionsRefreshed) + if event.Some? then 1 else 0
    {
      var canRetry := CanRetry(Action(Count(proxyRetry), 0, Missing, false), req.retry);
      if canRetry && errRetry {
        var e := Retry(req, Action(Missing, 0, Missing, false));
        return Some(e);
      }
      event := None;
    }

    /** The retry with another address (lib/server.js:1194-1204). `err`: too many addresses are banned. */
    method BannedIp(req: Req, isBanned: bool) returns (event: Option<Event>, err: bool)
      modifies req`retry, this`sessionsRefreshed
      ensures isBanned ==> HandedOver(old(req.retry), req.retry, IpBanned, event) && err == event.None?
      ensures !isBanned ==> req.retry == old(req.retry) && event.None? && !err
      ensures sessionsRefreshed == old(sessionsRefreshed) + if event.Some? then 2 else 0
    {
      event, err := None, false;
      if isBanned && req.retry < config.maxBanRetries {
        sessionsRefreshed := sessionsRefreshed + 1;
        var e := Retry(req, Action(Missing, 0, Missing, false));
        event := Some(e);
      } else if isBanned {
        err := true;
      }
    }
  }

  // ----- The chain of one request -----------------------------------------------------------------------

  /** The ports that have had the request, and how often it was handed over. A port may still act on it later. */
  datatype State = State(at: set<nat>, retry: nat)

  /** A hand-over: the port that gives the request away, and why. */
  datatype Hop = Hop(port: nat, cause: Cause)

  type Servers = map<nat, Config>

  predicate Possible(servers: Servers, s: State, h: Hop) {
    h.port in s.at && h.port in servers &&
    (h.cause.RuleFired? ==> h.cause.rule in servers[h.port].rules) &&
    GoesOn(servers[h.port], h.cause, s.retry)
  }

  /** The worker passes the request to the port that is asked for, if it has a server (lib/worker.js:301-310). */
  function After(servers: Servers, s: State, h: Hop): State {
    var to := if PortOf(h.cause) != 0 then PortOf(h.cause) else h.port;
    State(if to in servers then s.at + {to} else s.at, s.retry + 1)
  }

  predicate Chain(servers: Servers, s: State, hops: seq<Hop>)
    decreases |hops|
  {
    hops == [] || (Possible(servers, s, hops[0]) && Chain(servers, After(servers, s, hops[0]), hops[1..]))
  }

  /** The rules say how often, in numbers. */
  predicate Numeric(servers: Servers) {
    forall p, i :: p in servers && 0 <= i < |servers[p].rules| && servers[p].rules[i].isMinConn ==>
      servers[p].rules[i].action.retry != Missing
  }

  /** No setting exceeds `n`: neither 20, nor a `max_ban_retries`, nor a `retries`. */
  predicate IsBound(servers: Servers, n: nat) {
    n >= 20 &&
    (forall p :: p in servers ==> servers[p].maxBanRetries <= n) &&
    (forall p, i :: p in servers && 0 <= i < |servers[p].rules| && servers[p].rules[i].action.retries.Count? ==>
      servers[p].rules[i].action.retries.n <= n)
  }

  lemma HopBelow(servers: Servers, s: State, h: Hop, n: nat)
    requires IsBound(servers, n) && Numeric(servers) && Possible(servers, s, h)
    ensures s.retry < n
  {
    if h.cause.RuleFired? {
      var rules := servers[h.port].rules;
      var i :| 0 <= i < |rules| && rules[i] == h.cause.rule;
      assert rules[i].isMinConn ==> rules[i].action.retry != Missing;
    }
  }

  /** No chain is longer than the bound, whatever the ports refer to and whoever acts when. */
  lemma {:induction false} ChainBounded(servers: Servers, s: State, hops: seq<Hop>, n: nat)
    requires IsBound(servers, n) && Numeric(servers) && Chain(servers, s, hops) && s.retry <= n
    ensures s.retry + |hops| <= n
    decreases |hops|
  {
    if hops != [] {
      HopBelow(servers, s, hops[0], n);
      ChainBounded(servers, After(servers, s, hops[0]), hops[1..], n);
    }
  }

  /** A rule on slow connections without a number of retries goes on for ever. */
  lemma {:induction false} ChainEndless(servers: Servers, s: State, h: Hop, n: nat) returns (hops: seq<Hop>)
    requires h.cause.RuleFired? && h.cause.rule.isMinConn && h.cause.rule.action.retry == Missing
    requires h.port in s.at && h.port in servers && h.cause.rule in servers[h.port].rules
    ensures Chain(servers, s, hops) && |hops| == n
    decreases n
  {
    if n == 0 {
      hops := [];
    } else {
      var rest := ChainEndless(servers, After(servers, s, h), h, n - 1);
      hops := [h] + rest;
      assert hops[1..] == rest;
    }
  }

  /**
   Every chain of every request is finite, and no longer than the bound, exactly when the rules give their
   retries in numbers.
  */
  lemma BoundedExactly(servers: Servers, n: nat)
    requires IsBound(servers, n)
    ensures Numeric(servers) <==> forall p: nat, hops: seq<Hop> :: Chain(servers, State({p}, 0), hops) ==> |hops| <= n
  {
    if Numeric(servers) {
      forall p: nat, hops: seq<Hop> | Chain(servers, State({p}, 0), hops) ensures |hops| <= n {
        ChainBounded(servers, State({p}, 0), hops, n);
      }
    } else {
      var p, i :| p in servers && 0 <= i < |servers[p].rules| && servers[p].rules[i].isMinConn &&
        servers[p].rules[i].action.retry == Missing;
      var hops := ChainEndless(servers, State({p}, 0), Hop(p, RuleFired(servers[p].rules[i])), n + 1);
      assert Chain(servers, State({p}, 0), hops) && |hops| > n;
    }
  }

  // ----- How often one rule goes on ---------------------------------------------------------------------

  function Copies(h: Hop, n: nat): seq<Hop> {
    seq(n, i => h)
  }

  /** The cause alone hands a fresh request over `n` times. */
  predicate Repeats(config: Config, cause: Cause, n: nat) {
    Chain(map[1 := config], State({1}, 0), Copies(Hop(1, cause), n))
  }

  lemma GuardsStop(config: Config, cause: Cause, n: nat, m: nat)
    requires GoesOn(config, cause, n) && m <= n
    ensures GoesOn(config, cause, m)
  {
  }

  /** Guards stop for good, so only the last hand-over matters. */
  lemma {:induction false} CopiesChain(servers: Servers, s: State, h: Hop, n: nat)
    requires h.port in s.at && h.port in servers && (h.cause.RuleFired? ==> h.cause.rule in servers[h.port].rules)
    ensures Chain(servers, s, Copies(h, n)) <==> n == 0 || GoesOn(servers[h.port], h.cause, s.retry + n - 1)
    decreases n
  {
    hide GoesOn;
    if n > 0 {
      assert Copies(h, n)[1..] == Copies(h, n - 1);
      CopiesChain(servers, After(servers, s, h), h, n - 1);
      if GoesOn(servers[h.port], h.cause, s.retry + n - 1) {
        GuardsStop(servers[h.port], h.cause, s.retry + n - 1, s.retry);
      }
    }
  }

  /** How often a setting says: never when it is left out, once for `true`, or as often as the number. */
  function Times(v: Setting): int {
    match v
    case Missing => 0
    case Flag(on) => if on then 1 else 0
    case Count(n) => n
  }

  /**
   The caps of rules: one that retries does so at most three times, one that names a port twenty times, and
   `retries`, unless it is left out, false or zero, replaces both; a rule on slow connections goes on at most
   five times.
  */
  lemma RuleRepeats(rule: Rule, config: Config, n: nat)
    requires rule in config.rules
    ensures rule.isMinConn && rule.action.retry != Missing ==>
      (Repeats(config, RuleFired(rule), n) <==> n == 0 || (n <= Times(rule.action.retry) && n <= 5))
    ensures !rule.isMinConn && Times(rule.action.retries) != 0 ==>
      (Repeats(config, RuleFired(rule), n) <==> n == 0 || n <= Times(rule.action.retries))
    ensures !rule.isMinConn && Times(rule.action.retries) == 0 && rule.action.retryPort != 0 ==>
      (Repeats(config, RuleFired(rule), n) <==> n <= 20)
    ensures !rule.isMinConn && Times(rule.action.retries) == 0 && rule.action.retryPort == 0 ==>
      (Repeats(config, RuleFired(rule), n) <==> n == 0 || (n <= Times(rule.action.retry) && n <= 3))
  {
    CopiesChain(map[1 := config], State({1}, 0), Hop(1, RuleFired(rule)), n);
  }

  /**
   The caps of the other causes: ten redirects, three temporary failures or as few as are set, as many banned
   addresses as are set, and one routing.
  */
  lemma CauseRepeats(config: Config, port: nat, proxyRetry: nat, n: nat)
    ensures Repeats(config, Redirected, n) <==> n <= 10
    ensures Repeats(config, ProxyFailed(proxyRetry), n) <==> n <= proxyRetry && n <= 3
    ensures Repeats(config, IpBanned, n) <==> n <= config.maxBanRetries
    ensures Repeats(config, Routed(port), n) <==> n == 0 || (n == 1 && port != 0)
  {
    CopiesChain(map[1 := config], State({1}, 0), Hop(1, Redirected), n);
    CopiesChain(map[1 := config], State({1}, 0), Hop(1, ProxyFailed(proxyRetry)), n);
    CopiesChain(map[1 := config], State({1}, 0), Hop(1, IpBanned), n);
    CopiesChain(map[1 := config], State({1}, 0), Hop(1, Routed(port)), n);
  }

  // ----- Where a request goes ---------------------------------------------------------------------------

  function Final(servers: Servers, s: State, hops: seq<Hop>): State
    decreases |hops|
  {
    if hops == [] then s else Final(servers, After(servers, s, hops[0]), hops[1..])
  }

  /** A rule or a route names the port. */
  predicate Names(cause: Cause, port: nat) {
    port != 0 && ((cause.RuleFired? && cause.rule.action.retryPort == port) || cause == Routed(port))
  }

  /** A request comes to a port exactly if it began there or some hand-over named it and it has a server. */
  lemma {:induction false} WhereItGoes(servers: Servers, s: State, hops: seq<Hop>, port: nat)
    requires Chain(servers, s, hops)
    ensures port in Final(servers, s, hops).at <==>
      port in s.at || (port in servers && exists i :: 0 <= i < |hops| && Names(hops[i].cause, port))
    ensures Final(servers, s, hops).retry == s.retry + |hops|
    decreases |hops|
  {
    hide GoesOn;
    if hops != [] {
      WhereItGoes(servers, After(servers, s, hops[0]), hops[1..], port);
      if i :| 0 <= i < |hops[1..]| && Names(hops[1..][i].cause, port) {
        assert Names(hops[i + 1].cause, port);
      }
      if i :| 0 <= i < |hops| && Names(hops[i].cause, port) {
        assert i > 0 ==> Names(hops[1..][i - 1].cause, port);
      }
    }
  }
}
