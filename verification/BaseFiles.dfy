/**
  Files that build on a base file (`src/game/json_util.cpp`): the chain of bases is
  followed with cycles refused, and each file is laid over what it builds on. Members
  named as merged are laid over one by one, all others replace the base's.
*/
module BaseFiles {
  import opened Options

  /** A parsed JSON value. An object's members are a map, so no order or repeated key is left. */
  datatype Json =
    | Null
    | Bool(b: bool)
    | Number(n: real)
    | Text(s: string)
    | Array(elements: seq<Json>)
    | Object(members: map<string, Json>)

  type Members = map<string, Json>
  type Files = map<string, Json>

  const BASE := "base"
  const KIND := "kind"

  /** A string member. */
  function StringOf(own: Members, key: string): Option<string> {
    if key in own && own[key].Text? then Some(own[key].s) else None
  }

  /** One member of a file laid over the base's. */
  function LayMember(merges: bool, own: Json, base: Option<Json>): Json {
    if merges && own.Object? && base.Some? && base.value.Object? then Object(base.value.members + own.members) else own
  }

  function MemberOf(members: Members, key: string): Option<Json> {
    if key in members then Some(members[key]) else None
  }

  /** A file laid over what its base resolves to. */
  function LayOver(own: Members, base: Members, merged: set<string>): Members {
    map key | key in (own.Keys + base.Keys) - {BASE} ::
      if key in own then LayMember(key in merged, own[key], MemberOf(base, key)) else base[key]
  }

  /** The file's kind, when it names one, is what it builds on. */
  predicate KindsAgree(own: Members, base: Members) {
    StringOf(own, KIND).Some? ==> StringOf(base, KIND) == StringOf(own, KIND)
  }

  /** What `name` resolves to while `resolving` are being resolved. */
  function Resolve(name: string, files: Files, merged: set<string>, resolving: set<string>): Option<Members>
    decreases files.Keys - resolving
  {
    if name !in files || !files[name].Object? || name in resolving then None
    else
      var own := files[name].members;
      if BASE !in own then Some(own)
      else if !own[BASE].Text? then None
      else
        match Resolve(own[BASE].s, files, merged, resolving + {name})
        case None => None
        case Some(base) => if KindsAgree(own, base) then Some(LayOver(own, base, merged)) else None
  }

  // ---- The chain of bases ----

  /** From a file through its bases to one without. */
  predicate IsChain(files: Files, chain: seq<string>) {
    && chain != []
    && (forall k | 0 <= k < |chain| :: chain[k] in files && files[chain[k]].Object?)
    && (forall k | 0 <= k < |chain| - 1 :: StringOf(files[chain[k]].members, BASE) == Some(chain[k + 1]))
    && BASE !in files[chain[|chain| - 1]].members
  }

  function MembersOf(files: Files, chain: seq<string>): seq<Members>
    requires forall k | 0 <= k < |chain| :: chain[k] in files && files[chain[k]].Object?
  {
    seq(|chain|, k requires 0 <= k < |chain| => files[chain[k]].members)
  }

  /** What the nearest of `stack` (nearest first) that has `key` says. */
  function Nearest(stack: seq<Members>, key: string): Option<Json> {
    if stack == [] then None
    else if key in stack[0] then Some(stack[0][key])
    else Nearest(stack[1..], key)
  }

  /** The nearest file that has `key` at all keeps it an object, and so do those on to the nearest with this member. */
  function NearestMember(stack: seq<Members>, key: string, member: string): Option<Json> {
    if stack == [] then None
    else if key !in stack[0] then NearestMember(stack[1..], key, member)
    else if !stack[0][key].Object? then None
    else if member in stack[0][key].members then Some(stack[0][key].members[member])
    else NearestMember(stack[1..], key, member)
  }

  /** Each file's kind, when it names one, is the nearest kind of what it builds on; a merged kind is a string there too. */
  predicate KindsAgreeDown(stack: seq<Members>) {
    forall k | 0 <= k < |stack| - 1 && StringOf(stack[k], KIND).Some? ::
      Nearest(stack[k + 1..], KIND) == Some(stack[k][KIND])
  }

  /** The chain laid over, from its end up. */
  function LayDown(stack: seq<Members>, merged: set<string>): Members
    requires stack != []
  {
    if |stack| == 1 then stack[0] else LayOver(stack[0], LayDown(stack[1..], merged), merged)
  }

  // ---- What laying over gives ----

  /** A key that is not merged has the nearest file's value. */
  lemma {:induction false} PlainKeys(stack: seq<Members>, merged: set<string>, key: string)
    requires stack != [] && key != BASE && key !in merged
    ensures MemberOf(LayDown(stack, merged), key) == Nearest(stack, key)
    decreases |stack|
  {
    if |stack| > 1 {
      PlainKeys(stack[1..], merged, key);
    } else {
      assert stack[1..] == [];
    }
  }

  /** A merged key is there when any file has it; as an object it has each member from the nearest file that has it. */
  lemma {:induction false} MergedKeys(stack: seq<Members>, merged: set<string>, key: string)
    requires stack != [] && key != BASE && key in merged
    ensures var laid := MemberOf(LayDown(stack, merged), key);
            match Nearest(stack, key)
            case None => laid == None
            case Some(own) =>
              if !own.Object? then laid == Some(own)
              else laid.Some? && laid.value.Object? &&
                   forall member :: MemberOf(laid.value.members, member) == NearestMember(stack, key, member)
    decreases |stack|
  {
    hide LayOver, LayMember;
    var own, rest := stack[0], stack[1..];
    if rest != [] {
      MergedKeys(rest, merged, key);
      LaidAt(own, LayDown(rest, merged), merged, key);
      if key in own {
        forall member {
          NoMember(rest, key, member);
        }
        LaidMembers(own[key], MemberOf(LayDown(rest, merged), key));
      }
    }
  }

  lemma LaidAt(own: Members, base: Members, merged: set<string>, key: string)
    requires key != BASE
    ensures MemberOf(LayOver(own, base, merged), key)
            == if key in own then Some(LayMember(key in merged, own[key], MemberOf(base, key))) else MemberOf(base, key)
  {}

  lemma LaidMembers(own: Json, base: Option<Json>)
    ensures var laid := LayMember(true, own, base);
            && (!own.Object? ==> laid == own)
            && (own.Object? ==> laid.Object?)
            && (own.Object? ==> forall member ::
                  MemberOf(laid.members, member)
                  == if member in own.members then Some(own.members[member])
                     else if base.Some? && base.value.Object? then MemberOf(base.value.members, member) else None)
  {}

  lemma {:induction false} NoMember(stack: seq<Members>, key: string, member: string)
    ensures Nearest(stack, key) == None ==> NearestMember(stack, key, member) == None
    ensures Nearest(stack, key).Some? && !Nearest(stack, key).value.Object? ==> NearestMember(stack, key, member) == None
  {
    if stack != [] {
      NoMember(stack[1..], key, member);
    }
  }

  /** A chain's kind is the nearest kind, when that is a string. */
  lemma KindLaid(stack: seq<Members>, merged: set<string>)
    requires stack != []
    ensures forall kind :: StringOf(LayDown(stack, merged), KIND) == Some(kind) <==> Nearest(stack, KIND) == Some(Text(kind))
  {
    if KIND in merged {
      MergedKeys(stack, merged, KIND);
    } else {
      PlainKeys(stack, merged, KIND);
    }
  }

  lemma {:induction false} NoBaseLaid(stack: seq<Members>, merged: set<string>)
    requires stack != [] && BASE !in stack[|stack| - 1]
    ensures BASE !in LayDown(stack, merged)
    decreases |stack|
  {
    if |stack| > 1 {
      NoBaseLaid(stack[1..], merged);
    }
  }

  // ---- Resolving follows the chain ----

  /** Each file has one base, so a chain that came back to a file would never end. */
  lemma {:induction false} ChainsMeet(files: Files, chain: seq<string>, i: nat, j: nat)
    requires IsChain(files, chain) && i < j < |chain|
    ensures chain[i] != chain[j]
    decreases |chain| - j
  {
    if j < |chain| - 1 {
      ChainsMeet(files, chain, i + 1, j + 1);
      assert StringOf(files[chain[i]].members, BASE) == Some(chain[i + 1]);
      assert StringOf(files[chain[j]].members, BASE) == Some(chain[j + 1]);
    } else {
      assert StringOf(files[chain[i]].members, BASE) == Some(chain[i + 1]);
    }
  }

  lemma ChainRest(files: Files, chain: seq<string>)
    requires IsChain(files, chain) && |chain| > 1
    ensures IsChain(files, chain[1..]) && MembersOf(files, chain)[1..] == MembersOf(files, chain[1..])
    ensures StringOf(files[chain[0]].members, BASE) == Some(chain[1])
  {
    var rest := chain[1..];
    assert forall k | 0 <= k < |rest| :: rest[k] == chain[k + 1];
  }

  lemma KindsAgreeStep(stack: seq<Members>, merged: set<string>)
    requires |stack| > 1
    ensures KindsAgreeDown(stack) <==> KindsAgree(stack[0], LayDown(stack[1..], merged)) && KindsAgreeDown(stack[1..])
  {
    KindLaid(stack[1..], merged);
    var rest := stack[1..];
    assert stack[0 + 1..] == rest;
    assert forall k | 0 <= k < |rest| :: rest[k] == stack[k + 1] && rest[k + 1..] == stack[k + 1 + 1..];
    if KindsAgreeDown(stack) {
      assert StringOf(stack[0], KIND).Some? ==> Nearest(rest, KIND) == Some(stack[0][KIND]);
      forall k | 0 <= k < |rest| - 1 && StringOf(rest[k], KIND).Some? ensures Nearest(rest[k + 1..], KIND) == Some(rest[k][KIND]) {
        assert StringOf(stack[k + 1], KIND).Some?;
      }
    }
  }

  /** Along a chain clear of what is being resolved, resolving lays the chain over, if its kinds agree. */
  lemma {:induction false} ResolveChain(files: Files, merged: set<string>, resolving: set<string>, chain: seq<string>)
    requires IsChain(files, chain) && forall k | 0 <= k < |chain| :: chain[k] !in resolving
    ensures var stack := MembersOf(files, chain);
            Resolve(chain[0], files, merged, resolving) == if KindsAgreeDown(stack) then Some(LayDown(stack, merged)) else None
    decreases |chain|
  {
    if |chain| > 1 {
      var rest := chain[1..];
      ChainRest(files, chain);
      forall k | 0 <= k < |rest| ensures rest[k] !in resolving + {chain[0]} {
        ChainsMeet(files, chain, 0, k + 1);
      }
      ResolveChain(files, merged, resolving + {chain[0]}, rest);
      KindsAgreeStep(MembersOf(files, chain), merged);
    }
  }

  /** What resolves has a chain. */
  lemma {:induction false} ChainOf(name: string, files: Files, merged: set<string>, resolving: set<string>) returns (chain: seq<string>)
    requires Resolve(name, files, merged, resolving).Some?
    ensures IsChain(files, chain) && chain[0] == name && forall k | 0 <= k < |chain| :: chain[k] !in resolving
    decreases files.Keys - resolving
  {
    var own := files[name].members;
    if BASE !in own {
      chain := [name];
    } else {
      var rest := ChainOf(own[BASE].s, files, merged, resolving + {name});
      chain := [name] + rest;
      assert forall k | 0 < k < |chain| :: chain[k] == rest[k - 1];
    }
  }

  function KeySet(keys: seq<string>): set<string> {
    set key | key in keys
  }

  function JsonWithBase(name: string, files: Files, mergedKeys: seq<string>): Option<Members> {
    Resolve(name, files, KeySet(mergedKeys), {})
  }

  /** A file resolves exactly when its chain of bases ends and the kinds along it agree, cycles or not. */
  lemma ResolvesExactly(name: string, files: Files, mergedKeys: seq<string>)
    ensures JsonWithBase(name, files, mergedKeys).Some? <==>
            exists chain :: IsChain(files, chain) && chain[0] == name && KindsAgreeDown(MembersOf(files, chain))
  {
    var merged := KeySet(mergedKeys);
    if Resolve(name, files, merged, {}).Some? {
      var chain := ChainOf(name, files, merged, {});
      ResolveChain(files, merged, {}, chain);
    }
    forall chain | IsChain(files, chain) && chain[0] == name && KindsAgreeDown(MembersOf(files, chain))
      ensures Resolve(name, files, merged, {}).Some?
    {
      ResolveChain(files, merged, {}, chain);
    }
  }

  /** What a file resolves to: no base, plain keys from the nearest file, merged keys member by member. */
  lemma ResolvedKeys(name: string, files: Files, mergedKeys: seq<string>, chain: seq<string>, key: string)
    requires IsChain(files, chain) && chain[0] == name && KindsAgreeDown(MembersOf(files, chain))
    ensures var resolved := JsonWithBase(name, files, mergedKeys);
            var stack := MembersOf(files, chain);
            && resolved.Some?
            && BASE !in resolved.value
            && (key != BASE && key !in mergedKeys ==> MemberOf(resolved.value, key) == Nearest(stack, key))
            && (key != BASE && key in mergedKeys ==>
                  match Nearest(stack, key)
                  case None => key !in resolved.value
                  case Some(own) =>
                    key in resolved.value &&
                    if !own.Object? then resolved.value[key] == own
                    else resolved.value[key].Object? &&
                         forall member :: MemberOf(resolved.value[key].members, member) == NearestMember(stack, key, member))
  {
    var merged := KeySet(mergedKeys);
    var stack := MembersOf(files, chain);
    ResolveChain(files, merged, {}, chain);
    NoBaseLaid(stack, merged);
    if key != BASE {
      if key in merged {
        MergedKeys(stack, merged, key);
      } else {
        PlainKeys(stack, merged, key);
      }
    }
  }

  predicate BuildsOn(files: Files, name: string, base: string) {
    name in files && files[name].Object? && StringOf(files[name].members, BASE) == Some(base)
  }

  /** The name after the `k`-th, the first after the last. */
  function Following(round: seq<string>, k: nat): string
    requires k < |round|
  {
    if k + 1 == |round| then round[0] else round[k + 1]
  }

  /** Files whose bases lead round from the last back to the first. */
  predicate IsRound(files: Files, round: seq<string>) {
    round != [] && forall k | 0 <= k < |round| :: BuildsOn(files, round[k], Following(round, k))
  }

  /** A chain of bases that comes back to itself resolves to nothing. */
  lemma CyclesRefused(files: Files, mergedKeys: seq<string>, round: seq<string>)
    requires IsRound(files, round)
    ensures JsonWithBase(round[0], files, mergedKeys) == None
  {
    ResolvesExactly(round[0], files, mergedKeys);
    if chain: seq<string> :| IsChain(files, chain) && chain[0] == round[0] {
      RoundAndRound(files, round, chain, |chain| - 1);
    }
  }

  lemma {:induction false} RoundAndRound(files: Files, round: seq<string>, chain: seq<string>, k: nat)
    requires IsRound(files, round) && IsChain(files, chain) && chain[0] == round[0] && k < |chain|
    ensures exists m :: 0 <= m < |round| && chain[k] == round[m] && BuildsOn(files, round[m], Following(round, m))
  {
    if k == 0 {
      assert BuildsOn(files, round[0], Following(round, 0));
    } else {
      RoundAndRound(files, round, chain, k - 1);
      var m :| 0 <= m < |round| && chain[k - 1] == round[m];
      assert StringOf(files[chain[k - 1]].members, BASE) == Some(chain[k]);
      assert BuildsOn(files, round[m], Following(round, m));
    }
  }

  // ---- As it runs ----

  /** One merged member's own members written over the base's, one by one. */
  method MergeMembers(base: Members, own: Members) returns (merged: Members)
    ensures merged == base + own
  {
    merged := base;
    var left := own.Keys;
    while left != {}
      invariant left <= own.Keys
      invariant merged == base + (map key | key in own && key !in left :: own[key])
    {
      var key :| key in left;
      left := left - {key};
      merged := merged[key := own[key]];
    }
  }

  /** The file's members written over what its base resolved to, then the base's name erased. */
  method LayFile(own: Members, base: Members, mergedKeys: seq<string>) returns (merged: Members)
    ensures merged == LayOver(own, base, KeySet(mergedKeys))
  {
    merged := base;
    var left := own.Keys;
    while left != {}
      invariant left <= own.Keys
      invariant forall key :: MemberOf(merged, key) ==
                              if key in own && key !in left && key != BASE
                              then Some(LayMember(key in mergedKeys, own[key], MemberOf(base, key)))
                              else MemberOf(base, key)
    {
      var key :| key in left;
      left := left - {key};
      if key != BASE {
        var value := own[key];
        assert MemberOf(merged, key) == MemberOf(base, key);
        if key in mergedKeys && value.Object? && key in merged && merged[key].Object? {
          var members := MergeMembers(merged[key].members, value.members);
          merged := merged[key := Object(members)];
        } else {
          merged := merged[key := value];
        }
      }
    }
    merged := merged - {BASE};
    var laid := LayOver(own, base, KeySet(mergedKeys));
    assert forall key :: MemberOf(merged, key) == MemberOf(laid, key);
    assert forall key :: key in merged <==> MemberOf(merged, key).Some?;
    assert forall key :: key in laid <==> MemberOf(laid, key).Some?;
    assert merged.Keys == laid.Keys;
    assert forall key | key in merged :: MemberOf(merged, key) == Some(merged[key]);
  }

  method ResolveBase(name: string, files: Files, mergedKeys: seq<string>, resolving: set<string>) returns (merged: Option<Members>)
    ensures merged == Resolve(name, files, KeySet(mergedKeys), resolving)
    decreases files.Keys - resolving
  {
    if name !in files || !files[name].Object? || name in resolving {
      return None;
    }
    var own := files[name].members;
    var base := StringOf(own, BASE);
    if base.None? {
      return if BASE in own then None else Some(own);
    }
    merged := ResolveBase(base.value, files, mergedKeys, resolving + {name});
    if merged.None? {
      return None;
    }
    var kind := StringOf(own, KIND);
    if kind.Some? && StringOf(merged.value, KIND) != kind {
      return None;
    }
    var laid := LayFile(own, merged.value, mergedKeys);
    return Some(laid);
  }

  /**
    One file and its base, the names written out: it resolves exactly when it names no kind
    or its base's; then without a base, its own members over the base's, the merged objects
    member by member. A file with no base is itself, and what is neither is refused.
  */
  lemma TwoFiles(name: string, own: Members, under: string, basis: Members, mergedKeys: seq<string>, key: string)
    requires name != under && "base" !in basis
    ensures var files := map[name := Object(own), under := Object(basis)];
            && JsonWithBase(under, files, mergedKeys) == Some(basis)
            && ("base" !in own ==> JsonWithBase(name, files, mergedKeys) == Some(own))
            && ("base" in own && !own["base"].Text? ==> JsonWithBase(name, files, mergedKeys) == None)
            && ("base" in own && own["base"] == Text(name) ==> JsonWithBase(name, files, mergedKeys) == None)
            && ("base" in own && own["base"] == Text(under) ==>
                  var resolved := JsonWithBase(name, files, mergedKeys);
                  if "kind" in own && own["kind"].Text? && !("kind" in basis && basis["kind"] == own["kind"]) then resolved == None
                  else resolved.Some? && "base" !in resolved.value &&
                       (key != "base" ==>
                          if key !in own then (key in resolved.value <==> key in basis) && (key in basis ==> resolved.value[key] == basis[key])
                          else key in resolved.value &&
                               if key in mergedKeys && own[key].Object? && key in basis && basis[key].Object?
                               then resolved.value[key] == Object(basis[key].members + own[key].members)
                               else resolved.value[key] == own[key]))
  {
    var files := map[name := Object(own), under := Object(basis)];
    var merged := KeySet(mergedKeys);
    assert files[name] == Object(own) && files[under] == Object(basis);
    ResolveOne(under, files, merged, {});
    ResolveOne(under, files, merged, {name});
    ResolveOne(name, files, merged, {name});
    ResolveOne(name, files, merged, {});
    assert {} + {name} == {name};
    hide Resolve;
    if "base" in own && own["base"] == Text(under) {
      KindsAre(own, basis);
      LaidKey(own, basis, merged, key);
    }
  }

  lemma ResolveOne(name: string, files: Files, merged: set<string>, resolving: set<string>)
    requires name in files && files[name].Object?
    ensures var own, resolved := files[name].members, Resolve(name, files, merged, resolving);
            if name in resolving then resolved == None
            else if BASE !in own then resolved == Some(own)
            else if !own[BASE].Text? then resolved == None
            else match Resolve(own[BASE].s, files, merged, resolving + {name})
                 case None => resolved == None
                 case Some(base) => resolved == if KindsAgree(own, base) then Some(LayOver(own, base, merged)) else None
  {}

  lemma KindsAre(own: Members, base: Members)
    ensures KindsAgree(own, base) <==> !("kind" in own && own["kind"].Text? && !("kind" in base && base["kind"] == own["kind"]))
  {}

  lemma LaidKey(own: Members, base: Members, merged: set<string>, key: string)
    ensures var laid := LayOver(own, base, merged);
            && "base" !in laid
            && (key != "base" ==>
                  if key !in own then (key in laid <==> key in base) && (key in base ==> laid[key] == base[key])
                  else key in laid && laid[key] == if key in merged && own[key].Object? && key in base && base[key].Object?
                                                   then Object(base[key].members + own[key].members) else own[key])
  {}
}
