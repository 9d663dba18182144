/** _engine_plan and the routing memory (src/flaresolverr_service.py). */
module EnginePlan {
  import opened Basics
  import opened RecencyMap
  import opened Controller

  /** The request's engine field once trimmed and lower-cased. */
  datatype Forced = Auto | Named(name: string) | Invalid

  datatype Plan = Refused | Order(names: seq<string>)

  function Others(available: seq<string>, primary: string): seq<string> {
    if available == [] then []
    else (if available[0] != primary then [available[0]] else []) + Others(available[1..], primary)
  }

  /** Who goes first: the session's holder, then the host's remembered engine, then the default. */
  function Primary(available: seq<string>, holders: seq<string>, recalled: Option<string>, default: string): string {
    if |holders| == 1 then holders[0]
    else if holders != [] then (if recalled.Some? && recalled.value in holders then recalled.value else holders[0])
    else if recalled.Some? && recalled.value in available then recalled.value
    else if default in available then default
    else "chrome"
  }

  ghost predicate NoRepeats(s: seq<string>) {
    forall i, j | 0 <= i < j < |s| :: s[i] != s[j]
  }

  /** `holding` says which pools have the request's session; a request without one holds nothing. */
  method MakePlan(available: seq<string>, forced: Forced, holding: set<string>, host: string,
                  memory: Memory<string, string>, default: string, fallback: bool) returns (plan: Plan)
    requires NoRepeats(available) && "chrome" in available
    ensures plan.Refused? <==> forced.Invalid? || (forced.Named? && forced.name !in available)
    ensures forced.Named? && plan.Order? ==> plan.names == [forced.name]
    ensures forced.Auto? ==>
              var recalled := if host == "" then None else Find(memory.entries, host);
              var primary := Primary(available, Holders(available, holding), recalled, default);
              plan.names == [primary] + if fallback then Others(available, primary) else []
  {
    match forced
    case Invalid => return Refused;
    case Named(name) => return if name in available then Order([name]) else Refused;
    case Auto =>
      var holders := FindHolders(available, holding);
      var recalled := None;
      if host != "" { recalled := memory.Peek(host); }
      var order := AppendOthers(available, Primary(available, holders, recalled, default), fallback);
      return Order(order);
  }

  /** The engines whose pool has the request's session, in order. */
  method FindHolders(available: seq<string>, holding: set<string>) returns (holders: seq<string>)
    ensures holders == Holders(available, holding)
  {
    holders := [];
    assert available[0..] == available;
    for i := 0 to |available|
      invariant holders + Holders(available[i..], holding) == Holders(available, holding)
    {
      assert available[i..][1..] == available[i + 1..];
      if available[i] in holding { holders := holders + [available[i]]; }
    }
    assert available[|available|..] == [];
  }

  /** The primary, and every other engine after it with fallback on. */
  method AppendOthers(available: seq<string>, primary: string, fallback: bool) returns (order: seq<string>)
    ensures order == [primary] + if fallback then Others(available, primary) else []
  {
    order := [primary];
    if fallback {
      assert available[0..] == available;
      for i := 0 to |available|
        invariant order + Others(available[i..], primary) == [primary] + Others(available, primary)
      {
        assert available[i..][1..] == available[i + 1..];
        if available[i] != primary { order := order + [available[i]]; }
      }
      assert available[|available|..] == [];
    }
  }

  function Holders(available: seq<string>, holding: set<string>): seq<string> {
    if available == [] then []
    else (if available[0] in holding then [available[0]] else []) + Holders(available[1..], holding)
  }

  lemma {:induction false} HoldersAreAvailable(available: seq<string>, holding: set<string>)
    ensures forall x :: x in Holders(available, holding) <==> x in available && x in holding
  {
    if available != [] { HoldersAreAvailable(available[1..], holding); }
  }

  lemma {:induction false} OthersAre(available: seq<string>, primary: string)
    requires NoRepeats(available)
    ensures NoRepeats(Others(available, primary))
    ensures forall x :: x in Others(available, primary) <==> x in available && x != primary
  {
    if available != [] {
      forall i | 0 <= i < |available[1..]| ensures available[1..][i] != available[0] {
        assert available[1..][i] == available[i + 1];
      }
      OthersAre(available[1..], primary);
      assert available[0] !in available[1..];
    }
  }

  lemma {:induction false} FirstHolder(available: seq<string>, holding: set<string>, i: nat)
    requires i < |available| && available[i] in holding
    requires forall j | 0 <= j < i :: available[j] !in holding
    ensures Holders(available, holding) != [] && Holders(available, holding)[0] == available[i]
  {
    if i > 0 {
      assert available[0] !in holding;
      FirstHolder(available[1..], holding, i - 1);
    }
  }

  /**
    Who goes first. Among the engines holding the session it is the one remembered for the
    host, if it is one of them, and otherwise the first in order; a memory of an engine that
    does not hold it counts only when none does.
   */
  lemma PrimaryIs(available: seq<string>, holding: set<string>, recalled: Option<string>, default: string)
    ensures var first := Primary(available, Holders(available, holding), recalled, default);
            var remembered := recalled.Some? && recalled.value in available;
            var held := exists i :: 0 <= i < |available| && available[i] in holding;
            && (remembered && recalled.value in holding ==> first == recalled.value)
            && (!(remembered && recalled.value in holding) ==>
                  forall i | 0 <= i < |available| && available[i] in holding && (forall j | 0 <= j < i :: available[j] !in holding) ::
                    first == available[i])
            && (!held && remembered ==> first == recalled.value)
            && (!held && !remembered && default in available ==> first == default)
            && (!held && !remembered && default !in available ==> first == "chrome")
  {
    var holders := Holders(available, holding);
    HoldersAreAvailable(available, holding);
    forall i | 0 <= i < |available| && available[i] in holding && forall j | 0 <= j < i :: available[j] !in holding
      ensures holders != [] && holders[0] == available[i]
    {
      FirstHolder(available, holding, i);
    }
    assert forall x :: x in holders ==> x in available;
    assert holders != [] ==> holders[0] in holders;
    assert |holders| == 1 ==> forall x | x in holders :: x == holders[0];
  }

  /** The fallbacks keep the order the engines are listed in. */
  lemma {:induction false} OthersKeepOrder(before: seq<string>, primary: string, after: seq<string>)
    requires primary !in before && primary !in after
    ensures Others(before + [primary] + after, primary) == before + after
    ensures Others(after, primary) == after
  {
    NobodyIsLeftOut(after, primary);
    var all := before + [primary] + after;
    if before == [] {
      assert all[1..] == after;
    } else {
      assert all[1..] == before[1..] + [primary] + after;
      OthersKeepOrder(before[1..], primary, after);
    }
  }

  lemma {:induction false} NobodyIsLeftOut(available: seq<string>, primary: string)
    requires primary !in available
    ensures Others(available, primary) == available
  {
    if available != [] { NobodyIsLeftOut(available[1..], primary); }
  }

  /** The plan's engines are available, none twice, and with fallback on none is left out. */
  lemma PlanCovers(available: seq<string>, holding: set<string>, recalled: Option<string>, default: string, fallback: bool)
    requires NoRepeats(available) && "chrome" in available
    ensures var primary := Primary(available, Holders(available, holding), recalled, default);
            var order := [primary] + if fallback then Others(available, primary) else [];
            && NoRepeats(order) && (forall x | x in order :: x in available)
            && (fallback ==> forall x :: x in order <==> x in available)
            && (Holders(available, holding) != [] ==> primary in holding)
  {
    var holders := Holders(available, holding);
    var primary := Primary(available, holders, recalled, default);
    HoldersAreAvailable(available, holding);
    assert holders != [] ==> holders[0] in holders;
    OthersAre(available, primary);
    var rest := if fallback then Others(available, primary) else [];
    forall i | 0 <= i < |rest| ensures rest[i] != primary { assert rest[i] in rest; }
  }

  /**
    Routing as a function of history: a sessionless, unforced request for a host goes
    first to the engine that last cleared it, if it is available and fewer than 500
    other hosts were cleared since; otherwise to the default.
   */
  lemma HistoryRoutes(history: seq<Entry<string, string>>, host: string, available: seq<string>, default: string)
    ensures var recalled := Find(Replay(history, MAX_REMEMBERED_HOSTS), host);
            var primary := Primary(available, Holders(available, {}), recalled, default);
            && (recalled == if |StoredSince(history, host)| < 500 then LastValue(history, host) else None)
            && (if |StoredSince(history, host)| < 500 && LastValue(history, host).Some?
                   && LastValue(history, host).value in available
                then primary == LastValue(history, host).value
                else primary == if default in available then default else "chrome")
  {
    RecallIsHistory(history, MAX_REMEMBERED_HOSTS, host);
    NobodyHolds(available);
  }

  lemma {:induction false} NobodyHolds(available: seq<string>)
    ensures Holders(available, {}) == []
  {
    if available != [] { NobodyHolds(available[1..]); }
  }
}
