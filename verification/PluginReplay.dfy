// engine/events/store.py with engine/events/replay.py: when the two replays' lists of loaded plugins
// agree although one of them stops at its limit.

module PluginReplays {
  import opened Basics
  import opened Sequences
  import opened EventReplays

  lemma {:induction false} RemoveFromConcat(a: seq<Value>, b: seq<Value>, x: Value)
    ensures RemoveFirst(a + b, x) == if x in a then RemoveFirst(a, x) + b else a + RemoveFirst(b, x)
  {
    if a == [] {
      assert a + b == b;
    } else {
      var head, rest := a[0], a[1..];
      assert a == [head] + rest && a + b == [head] + (rest + b);
      assert (a + b)[1..] == rest + b;
      if head != x {
        RemoveFromConcat(rest, b, x);
        hide RemoveFirst;
        RemoveLater(head, rest, x);
        RemoveLater(head, rest + b, x);
        RemoveConcat(head, rest, b, x);
      }
    }
  }

  lemma RemoveLater(head: Value, rest: seq<Value>, x: Value)
    requires head != x
    ensures RemoveFirst([head] + rest, x) == [head] + RemoveFirst(rest, x)
  {
    assert ([head] + rest)[1..] == rest;
  }

  lemma RemoveConcat(head: Value, rest: seq<Value>, b: seq<Value>, x: Value)
    ensures [head] + (RemoveFirst(rest, x) + b) == [head] + RemoveFirst(rest, x) + b
    ensures [head] + (rest + RemoveFirst(b, x)) == [head] + rest + RemoveFirst(b, x)
  {
  }

  // What is left of the list after the unloading in later events; and what was loaded there and not
  // unloaded again. Unloading takes from the list first.
  function Kept(list: seq<Value>, later: seq<Event>): seq<Value> {
    if later == [] then list
    else
      var kept, e := Kept(list, later[..|later| - 1]), later[|later| - 1];
      if e.kind.PluginUnloaded? then RemoveFirst(kept, e.data.Get("plugin")) else kept
  }

  function NetLoads(list: seq<Value>, later: seq<Event>): seq<Value> {
    if later == [] then []
    else
      var front, e := later[..|later| - 1], later[|later| - 1];
      var loads, name := NetLoads(list, front), e.data.Get("plugin");
      match e.kind
      case PluginLoaded => loads + [name]
      case PluginUnloaded => if name in Kept(list, front) then loads else RemoveFirst(loads, name)
      case _ => loads
  }

  lemma {:induction false} PluginsSplit(events: seq<Event>, k: nat)
    requires k <= |events|
    ensures var list := Tallied(events[..k]).plugins;
      Tallied(events).plugins == Kept(list, events[k..]) + NetLoads(list, events[k..])
    decreases |events|
  {
    var list := Tallied(events[..k]).plugins;
    if k < |events| {
      var front, e := events[..|events| - 1], events[|events| - 1];
      assert front[..k] == events[..k] && events[k..] == front[k..] + [e];
      assert events[k..][..|events| - k - 1] == front[k..];
      PluginsSplit(front, k);
      var kept, loads, name := Kept(list, front[k..]), NetLoads(list, front[k..]), e.data.Get("plugin");
      if e.kind == PluginLoaded {
        assert kept + loads + [name] == kept + (loads + [name]);
      } else if e.kind == PluginUnloaded {
        RemoveFromConcat(kept, loads, name);
        if name !in kept { RemoveNothing(kept, name); }
      }
    } else {
      assert events[..k] == events && events[k..] == [] && list + [] == list;
    }
  }

  // The lists agree exactly when what the events beyond the limit leave of the first list, and what
  // they load on balance, is the list again.
  lemma PluginsAgreeIff(events: seq<Event>, limit: nat)
    requires AllDicts(events) && limit <= |events|
    ensures var list := Tallied(events[..limit]).plugins;
      list == BuiltFrom(events).loaded <==> Kept(list, events[limit..]) + NetLoads(list, events[limit..]) == list
  {
    ReplaysAgree(events);
    PluginsSplit(events, limit);
  }

  // ---------- Lists without repeats ----------

  ghost predicate Unloaded(later: seq<Event>, name: Value) {
    exists i :: 0 <= i < |later| && later[i].kind.PluginUnloaded? && later[i].data.Get("plugin") == name
  }

  lemma UnloadedNext(later: seq<Event>, name: Value)
    requires later != []
    ensures var e := later[|later| - 1];
      Unloaded(later, name) <==>
        Unloaded(later[..|later| - 1], name) || (e.kind.PluginUnloaded? && e.data.Get("plugin") == name)
  {
    var front := later[..|later| - 1];
    if Unloaded(front, name) {
      var i :| 0 <= i < |front| && front[i].kind.PluginUnloaded? && front[i].data.Get("plugin") == name;
      assert later[i] == front[i];
    }
    if Unloaded(later, name) {
      var i :| 0 <= i < |later| && later[i].kind.PluginUnloaded? && later[i].data.Get("plugin") == name;
      assert i < |front| ==> front[i] == later[i];
    }
  }

  // Those of the list that are not unloaded, in their order.
  ghost function Remaining(list: seq<Value>, later: seq<Event>): (r: seq<Value>)
    ensures forall x :: x in r <==> x in list && !Unloaded(later, x)
  {
    if list == [] then []
    else
      var rest, last := Remaining(list[1..], later), list[0];
      if Unloaded(later, last) then rest else [last] + rest
  }

  lemma {:induction false} RemainingNext(list: seq<Value>, later: seq<Event>)
    requires NoDup(list) && later != []
    ensures var front, e := later[..|later| - 1], later[|later| - 1];
      Remaining(list, later) == if e.kind.PluginUnloaded? then RemoveFirst(Remaining(list, front), e.data.Get("plugin"))
                                else Remaining(list, front)
  {
    if list != [] {
      var front, e := later[..|later| - 1], later[|later| - 1];
      NoDupTail(list);
      UnloadedNext(later, list[0]);
      RemainingNext(list[1..], later);
      var rest, name := Remaining(list[1..], front), e.data.Get("plugin");
      if e.kind.PluginUnloaded? && !Unloaded(front, list[0]) {
        assert ([list[0]] + rest)[1..] == rest;
        if name == list[0] { RemoveNothing(rest, name); } else { RemoveLater(list[0], rest, name); }
      }
    }
  }

  lemma {:induction false} KeptIsRemaining(list: seq<Value>, later: seq<Event>)
    requires NoDup(list)
    ensures Kept(list, later) == Remaining(list, later)
  {
    if later == [] {
      NoneUnloaded(list);
    } else {
      KeptIsRemaining(list, later[..|later| - 1]);
      RemainingNext(list, later);
    }
  }

  lemma {:induction false} NoneUnloaded(list: seq<Value>)
    ensures Remaining(list, []) == list
  {
    if list != [] {
      NoneUnloaded(list[1..]);
      assert [list[0]] + list[1..] == list;
    }
  }

  // Those of the list that are unloaded are those from position k on.
  ghost predicate UnloadedFrom(list: seq<Value>, later: seq<Event>, k: nat)
    requires k <= |list|
  {
    forall i :: 0 <= i < |list| ==> (Unloaded(later, list[i]) <==> i >= k)
  }

  // What remains is a beginning of the list exactly when those unloaded are the end of it.
  lemma RemainsBeginning(list: seq<Value>, later: seq<Event>, k: nat)
    requires NoDup(list) && k <= |list|
    ensures Remaining(list, later) == list[..k] <==> UnloadedFrom(list, later, k)
  {
    hide Unloaded, NoDup;
    if UnloadedFrom(list, later, k) { EndUnloaded(list, later, k); }
    if Remaining(list, later) == list[..k] {
      NoDupMeansDistinct(list);
      forall i | 0 <= i < |list| ensures Unloaded(later, list[i]) <==> i >= k {
        assert list[i] in list;
        if i < k { assert list[..k][i] == list[i]; }
      }
    }
  }

  lemma {:induction false} EndUnloaded(list: seq<Value>, later: seq<Event>, k: nat)
    requires k <= |list| && UnloadedFrom(list, later, k)
    ensures Remaining(list, later) == list[..k]
    decreases |list|
  {
    hide Unloaded;
    if list != [] {
      assert forall i :: 0 <= i < |list[1..]| ==> list[1..][i] == list[i + 1];
      EndUnloaded(list[1..], later, if k == 0 then 0 else k - 1);
      if k > 0 { assert list[..k] == [list[0]] + list[1..][..k - 1]; }
    }
  }

  // For a list without repeats: the lists agree exactly when those of the list that are unloaded
  // beyond the limit are the end of it, and what is loaded there on balance is that end again.
  lemma PluginsAgreeIffReloaded(events: seq<Event>, limit: nat)
    requires AllDicts(events) && limit <= |events| && NoDup(Tallied(events[..limit]).plugins)
    ensures var list, later := Tallied(events[..limit]).plugins, events[limit..];
      list == BuiltFrom(events).loaded <==>
      exists k :: 0 <= k <= |list| && UnloadedFrom(list, later, k) && NetLoads(list, later) == list[k..]
  {
    var list, later := Tallied(events[..limit]).plugins, events[limit..];
    PluginsAgreeIff(events, limit);
    KeptIsRemaining(list, later);
    var kept, loads := Remaining(list, later), NetLoads(list, later);
    hide Remaining, NetLoads, Kept, NoDup, Unloaded, UnloadedFrom;
    if kept + loads == list {
      RemainsBeginning(list, later, |kept|);
      assert list[..|kept|] == kept && list[|kept|..] == loads;
    }
    forall k | 0 <= k <= |list| && loads == list[k..] && UnloadedFrom(list, later, k) ensures kept + loads == list {
      RemainsBeginning(list, later, k);
      assert list == list[..k] + list[k..];
    }
  }

  // ---------- Only loading, or only unloading ----------

  lemma {:induction false} PluginsGrow(events: seq<Event>, k: nat)
    requires k <= |events| && forall i :: k <= i < |events| ==> events[i].kind != PluginUnloaded
    ensures var t, front := Tallied(events), Tallied(events[..k]);
      && front.plugins <= t.plugins
      && (|front.plugins| == |t.plugins| <==> forall i :: k <= i < |events| ==> events[i].kind != PluginLoaded)
    decreases |events|
  {
    if k == |events| {
      assert events[..k] == events;
    } else {
      var front := events[..|events| - 1];
      assert forall i :: k <= i < |front| ==> front[i] == events[i];
      PluginsGrow(front, k);
      assert front[..k] == events[..k];
    }
  }

  // In particular, where nothing is unloaded beyond the limit, exactly when nothing is loaded there.
  lemma PluginsAgreeIffNoneLoaded(events: seq<Event>, limit: nat)
    requires AllDicts(events) && forall i :: limit <= i < |events| ==> events[i].kind != PluginUnloaded
    ensures Tallied(Take(events, limit)).plugins == BuiltFrom(events).loaded <==>
      forall i :: limit <= i < |events| ==> events[i].kind != PluginLoaded
  {
    ReplaysAgree(events);
    if |events| > limit { PluginsGrow(events, limit); }
  }

  lemma {:induction false} PluginsShrink(events: seq<Event>, k: nat)
    requires k <= |events| && forall i :: k <= i < |events| ==> events[i].kind != PluginLoaded
    ensures var t, front := Tallied(events), Tallied(events[..k]);
      && |t.plugins| <= |front.plugins|
      && (t.plugins == front.plugins <==> |t.plugins| == |front.plugins|)
      && (t.plugins == front.plugins <==>
            forall i :: k <= i < |events| && events[i].kind == PluginUnloaded ==>
              events[i].data.Get("plugin") !in front.plugins)
    decreases |events|
  {
    if k == |events| {
      assert events[..k] == events;
    } else {
      var front, e := events[..|events| - 1], events[|events| - 1];
      assert forall i :: k <= i < |front| ==> front[i] == events[i];
      PluginsShrink(front, k);
      assert front[..k] == events[..k];
      if e.kind == PluginUnloaded && e.data.Get("plugin") !in Tallied(front).plugins {
        RemoveNothing(Tallied(front).plugins, e.data.Get("plugin"));
      }
    }
  }

  lemma {:induction false} RemoveNothing(list: seq<Value>, x: Value)
    requires x !in list
    ensures RemoveFirst(list, x) == list
  {
    if list != [] { RemoveNothing(list[1..], x); }
  }

  // And where nothing is loaded beyond the limit, exactly when no plugin of the list is unloaded there.
  lemma PluginsAgreeIffNoneUnloaded(events: seq<Event>, limit: nat)
    requires AllDicts(events) && forall i :: limit <= i < |events| ==> events[i].kind != PluginLoaded
    ensures var list := Tallied(Take(events, limit)).plugins;
      list == BuiltFrom(events).loaded <==>
      forall i :: limit <= i < |events| && events[i].kind == PluginUnloaded ==> events[i].data.Get("plugin") !in list
  {
    ReplaysAgree(events);
    if |events| > limit { PluginsShrink(events, limit); }
  }

}
