/**
Channel plugins enter the process-wide registry of channel types, each under its own name and
every extra type it declares. Registering overwrites, so every type is checked first.
*/
module PluginChannels {
  import opened Wrappers

  /** A factory is known by the plugin it was built for; built-in transports have other factories. */
  datatype Factory = BuiltIn(kind: string) | ForPlugin(index: nat)

  /** An enabled record; `works` is whether its factory can be built (binary and handshake). */
  datatype Record = Record(name: string, isChannel: bool, channelTypes: seq<string>, works: bool)

  type Types = map<string, Factory>

  datatype Outcome = Installed | Refused(index: nat)

  // ----- the declared types of a plugin

  /** A type is declared when it is the plugin's name or a non-empty extra type. */
  predicate Declares(r: Record, t: string) {
    t == r.name || (t != "" && t in r.channelTypes)
  }

  ghost predicate Distinct(ts: seq<string>) {
    forall i, j | 0 <= i < j < |ts| :: ts[i] != ts[j]
  }

  /** Where t first occurs, or the length. */
  function FirstIndex(ts: seq<string>, t: string): (i: nat)
    ensures i <= |ts| && (i < |ts| ==> ts[i] == t) && forall j | 0 <= j < i :: ts[j] != t
  {
    if ts == [] || ts[0] == t then 0 else 1 + FirstIndex(ts[1..], t)
  }

  /** The extra types stand in the order in which they are first declared. */
  ghost predicate InDeclaredOrder(declared: seq<string>, types: seq<string>) {
    forall x, y | 0 < x < y < |types| :: FirstIndex(declared, types[x]) < FirstIndex(declared, types[y])
  }

  /** pluginChannelTypeNames: the name first, every declared type once in declared order, nothing else. */
  method TypeNames(r: Record) returns (types: seq<string>)
    ensures types != [] && types[0] == r.name && Distinct(types)
    ensures forall t :: t in types <==> Declares(r, t)
    ensures InDeclaredOrder(r.channelTypes, types)
  {
    types := [r.name];
    var seen := {r.name};
    for i := 0 to |r.channelTypes|
      invariant types != [] && types[0] == r.name && Distinct(types)
      invariant forall t :: t in seen <==> t in types
      invariant forall t :: t in types <==> t == r.name || (t != "" && t in r.channelTypes[..i])
      invariant InDeclaredOrder(r.channelTypes, types)
      invariant forall x | 0 < x < |types| :: FirstIndex(r.channelTypes, types[x]) < i
    {
      var t := r.channelTypes[i];
      assert r.channelTypes[..i + 1] == r.channelTypes[..i] + [t];
      if t != "" && t !in seen {
        assert FirstIndex(r.channelTypes, t) == i by {
          assert t !in r.channelTypes[..i];
        }
        seen := seen + {t};
        types := types + [t];
      }
    }
    assert r.channelTypes[..|r.channelTypes|] == r.channelTypes;
  }

  // ----- what the registry should hold

  /** Plugin k's types in the registry all lead to plugin k. */
  ghost predicate Owns(rs: seq<Record>, reg: Types, k: nat)
    requires k < |rs|
  {
    forall t | Declares(rs[k], t) :: t in reg && reg[t] == ForPlugin(k)
  }

  ghost predicate Claimed(rs: seq<Record>, n: nat, t: string)
    requires n <= |rs|
  {
    exists k | 0 <= k < n :: rs[k].isChannel && Declares(rs[k], t)
  }

  /** The channel plugins before n are all in, the start is untouched, and there is nothing else. */
  ghost predicate HoldsFirst(rs: seq<Record>, start: Types, reg: Types, n: nat)
    requires n <= |rs|
  {
    && (forall t | t in start :: t in reg && reg[t] == start[t])
    && (forall k | 0 <= k < n && rs[k].isChannel :: Owns(rs, reg, k))
    && (forall t | t in reg :: t in start || Claimed(rs, n, t))
  }

  /**
  The channel plugins before n can all be registered: each builds, none declares a type of the
  start, and no two declare the same type.
  */
  ghost predicate CanInstall(rs: seq<Record>, start: Types, n: nat)
    requires n <= |rs|
  {
    forall k | 0 <= k < n && rs[k].isChannel :: CanAdd(rs, start, k)
  }

  ghost predicate CanAdd(rs: seq<Record>, start: Types, k: nat)
    requires k < |rs|
  {
    rs[k].works && forall t | Declares(rs[k], t) :: t !in start && !Claimed(rs, k, t)
  }

  // ----- the loops

  class Registry {
    var factories: Types

    constructor (start: Types)
      ensures factories == start
    {
      factories := start;
    }

    method Register(t: string, f: Factory)
      modifies this
      ensures factories == old(factories)[t := f]
    {
      factories := factories[t := f];
    }

    method AnyTaken(types: seq<string>) returns (taken: bool)
      ensures taken <==> exists t :: t in types && t in factories
    {
      for i := 0 to |types|
        invariant forall t | t in types[..i] :: t !in factories
      {
        if types[i] in factories {
          return true;
        }
      }
      taken := false;
    }

    method RegisterAll(types: seq<string>, f: Factory)
      modifies this
      ensures forall t :: t in factories <==> t in old(factories) || t in types
      ensures forall t | t in factories :: factories[t] == if t in types then f else old(factories)[t]
    {
      for i := 0 to |types|
        invariant forall t :: t in factories <==> t in old(factories) || t in types[..i]
        invariant forall t | t in factories :: factories[t] == if t in types[..i] then f else old(factories)[t]
      {
        Register(types[i], f);
      }
    }

    /**
    installPluginChannels over the enabled records: all in, or everything before the first record
    that cannot be added and nothing of it.
    */
    method Install(rs: seq<Record>) returns (out: Outcome)
      modifies this
      ensures out.Installed? <==> CanInstall(rs, old(factories), |rs|)
      ensures out.Installed? ==> HoldsFirst(rs, old(factories), factories, |rs|)
      ensures out.Refused? ==>
                && out.index < |rs| && HoldsFirst(rs, old(factories), factories, out.index)
                && CanInstall(rs, old(factories), out.index) && !CanInstall(rs, old(factories), out.index + 1)
                && (factories == old(factories) <==> NoChannelBefore(rs, out.index))
    {
      for k := 0 to |rs|
        invariant HoldsFirst(rs, old(factories), factories, k) && CanInstall(rs, old(factories), k)
      {
        if rs[k].isChannel {
          var types := TypeNames(rs[k]);
          var taken := AnyTaken(types);
          CanInstallNext(rs, old(factories), factories, k);
          if taken || !rs[k].works {
            MoreIsHarder(rs, old(factories), k + 1);
            UnchangedExactly(rs, old(factories), factories, k);
            return Refused(k);
          }
          ghost var before := factories;
          RegisterAll(types, ForPlugin(k));
          StepHolds(rs, old(factories), before, factories, k);
        } else {
          SkipHolds(rs, old(factories), factories, k);
          CanInstallNext(rs, old(factories), factories, k);
        }
      }
      out := Installed;
    }
  }

  lemma StepHolds(rs: seq<Record>, start: Types, before: Types, after: Types, k: nat)
    requires k < |rs| && rs[k].isChannel && HoldsFirst(rs, start, before, k)
    requires forall t | Declares(rs[k], t) :: t !in before
    requires forall t :: t in after <==> t in before || Declares(rs[k], t)
    requires forall t | t in after :: after[t] == if Declares(rs[k], t) then ForPlugin(k) else before[t]
    ensures HoldsFirst(rs, start, after, k + 1)
  {
    forall t | t in after ensures t in start || Claimed(rs, k + 1, t) {
      if t in before {
        if t !in start {
          assert Claimed(rs, k, t);
        }
      } else {
        assert Declares(rs[k], t);
      }
    }
    forall j | 0 <= j < k + 1 && rs[j].isChannel ensures Owns(rs, after, j) {
      if j < k {
        assert Owns(rs, before, j);
      }
    }
  }

  lemma SkipHolds(rs: seq<Record>, start: Types, reg: Types, k: nat)
    requires k < |rs| && !rs[k].isChannel && HoldsFirst(rs, start, reg, k)
    ensures HoldsFirst(rs, start, reg, k + 1)
  {
    forall t | t in reg && t !in start ensures Claimed(rs, k + 1, t) {
      assert Claimed(rs, k, t);
    }
  }

  /** A registry that holds the first k plugins can take the next exactly when it fits. */
  lemma CanInstallNext(rs: seq<Record>, start: Types, reg: Types, k: nat)
    requires k < |rs| && HoldsFirst(rs, start, reg, k) && CanInstall(rs, start, k)
    ensures CanInstall(rs, start, k + 1) <==>
            !rs[k].isChannel || (rs[k].works && forall t | Declares(rs[k], t) :: t !in reg)
  {
    forall t ensures t in reg <==> t in start || Claimed(rs, k, t) {
      if Claimed(rs, k, t) {
        var j :| 0 <= j < k && rs[j].isChannel && Declares(rs[j], t);
        assert Owns(rs, reg, j);
      }
    }
    assert CanInstall(rs, start, k + 1) <==> !rs[k].isChannel || CanAdd(rs, start, k);
  }

  lemma MoreIsHarder(rs: seq<Record>, start: Types, n: nat)
    requires n <= |rs|
    ensures CanInstall(rs, start, |rs|) ==> CanInstall(rs, start, n)
  {
  }

  ghost predicate NoChannelBefore(rs: seq<Record>, k: nat)
    requires k <= |rs|
  {
    forall j | 0 <= j < k :: !rs[j].isChannel
  }

  /** A refusal at record k leaves the registry as it was exactly when no channel plugin comes before k. */
  lemma UnchangedExactly(rs: seq<Record>, start: Types, reg: Types, k: nat)
    requires k <= |rs| && HoldsFirst(rs, start, reg, k) && CanInstall(rs, start, k)
    ensures reg == start <==> NoChannelBefore(rs, k)
  {
    if NoChannelBefore(rs, k) {
      forall t ensures t in reg <==> t in start {
        assert !Claimed(rs, k, t);
      }
    } else {
      var j :| 0 <= j < k && rs[j].isChannel;
      assert CanAdd(rs, start, j) && Owns(rs, reg, j) && Declares(rs[j], rs[j].name);
    }
  }

  /** Two plugins of one name: the second is refused, and the first stays registered. */
  lemma EarlierPluginStays(name: string, start: Types, reg: Types)
    requires name !in start
    ensures var rs := [Record(name, true, [], true), Record(name, true, [], true)];
            && CanInstall(rs, start, 1) && !CanInstall(rs, start, 2)
            && (HoldsFirst(rs, start, reg, 1) ==> name in reg && reg != start)
  {
    var rs := [Record(name, true, [], true), Record(name, true, [], true)];
    assert rs[0].isChannel && rs[1].isChannel && Declares(rs[0], name) && Declares(rs[1], name);
    assert Claimed(rs, 1, name);
    assert !CanAdd(rs, start, 1);
    if HoldsFirst(rs, start, reg, 1) {
      assert Owns(rs, reg, 0);
    }
  }

  // ----- what it means

  /** A type has one owner. */
  lemma OneOwner(rs: seq<Record>, start: Types, reg: Types, n: nat, i: nat, j: nat, t: string)
    requires n <= |rs| && HoldsFirst(rs, start, reg, n)
    requires i < n && j < n && rs[i].isChannel && rs[j].isChannel && Declares(rs[i], t) && Declares(rs[j], t)
    ensures i == j && reg[t] == ForPlugin(i)
  {
    assert Owns(rs, reg, i) && Owns(rs, reg, j);
  }
}
