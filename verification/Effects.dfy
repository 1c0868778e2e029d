/**
  How items change numbers of play (`src/game/effects.cpp`, `src/game/item_catalog.cpp`):
  running effects are gathered in three buckets, ended ones are pruned, and an item that
  refreshes replaces what its last use left running. Times are in milliseconds.
*/
module Effects {
  datatype Bucket = Flat | Increased | More

  datatype Duration = Instant | Seconds | WhileUsed | Equipped

  datatype Effect = Effect(target: string, bucket: Bucket, value: real, duration: Duration, seconds: real)

  /** Running over [started, ends). */
  datatype Active = Active(item: string, effect: Effect, started: int, ends: int)

  /** `useSeconds` is negative for an item that is not used. */
  datatype Item = Item(id: string, refreshes: bool, effects: seq<Effect>, usable: bool, useSeconds: real)

  datatype Totals = Totals(flat: real, increased: real, more: real)

  predicate Running(a: Active, now: int) {
    a.started <= now < a.ends
  }

  predicate Touches(a: Active, targets: seq<string>, now: int) {
    Running(a, now) && a.effect.target in targets
  }

  function Gather(t: Totals, e: Effect): Totals {
    match e.bucket
    case Flat => t.(flat := t.flat + e.value)
    case Increased => t.(increased := t.increased + e.value)
    case More => t.(more := t.more * (1.0 + e.value))
  }

  /** All effects that touch the targets, gathered in order. */
  function Gathered(effects: seq<Active>, targets: seq<string>, now: int): Totals {
    if effects == [] then Totals(0.0, 0.0, 1.0)
    else
      var before := Gathered(effects[..|effects| - 1], targets, now);
      var last := effects[|effects| - 1];
      if Touches(last, targets, now) then Gather(before, last.effect) else before
  }

  function Value(base: real, t: Totals): real {
    (base + t.flat) * (1.0 + t.increased) * t.more
  }

  function ValueOf(base: real, targets: seq<string>, effects: seq<Active>, now: int): real {
    Value(base, Gathered(effects, targets, now))
  }

  method EffectiveValue(base: real, targets: seq<string>, effects: seq<Active>, now: int) returns (value: real)
    ensures value == ValueOf(base, targets, effects, now)
  {
    var flat, increased, more := 0.0, 0.0, 1.0;
    for i := 0 to |effects|
      invariant Totals(flat, increased, more) == Gathered(effects[..i], targets, now)
    {
      var a := effects[i];
      assert effects[..i + 1][..i] == effects[..i];
      if Running(a, now) && a.effect.target in targets {
        match a.effect.bucket
        case Flat => flat := flat + a.effect.value;
        case Increased => increased := increased + a.effect.value;
        case More => more := more * (1.0 + a.effect.value);
      }
    }
    assert effects[..|effects|] == effects;
    return (base + flat) * (1.0 + increased) * more;
  }

  /**
    One more effect counts exactly while it runs and when one of the targets is its own: a
    flat one then raises the base, an increase adds its share of base and flats, a "more"
    multiplies. No effects leave the base.
  */
  lemma BucketsAct(base: real, targets: seq<string>, effects: seq<Active>, a: Active, now: int)
    ensures var was, v := ValueOf(base, targets, effects, now), a.effect.value;
            ValueOf(base, targets, effects + [a], now) ==
            if a.started <= now && now < a.ends && exists k :: 0 <= k < |targets| && targets[k] == a.effect.target then
              match a.effect.bucket
              case Flat => ValueOf(base + v, targets, effects, now)
              case Increased => was + v * (base + Gathered(effects, targets, now).flat) * Gathered(effects, targets, now).more
              case More => was * (1.0 + v)
            else was
    ensures ValueOf(base, targets, [], now) == base
  {
    assert (effects + [a])[..|effects|] == effects;
    var t, v := Gathered(effects, targets, now), a.effect.value;
    assert (base + t.flat) * (1.0 + (t.increased + v)) == (base + t.flat) * (1.0 + t.increased) + (base + t.flat) * v;
  }

  // ---- The order of effects does not matter ----

  lemma GatherSwaps(t: Totals, a: Effect, b: Effect)
    ensures Gather(Gather(t, a), b) == Gather(Gather(t, b), a)
  {
    var x, y := 1.0 + a.value, 1.0 + b.value;
    assert t.more * x * y == t.more * y * x;
  }

  lemma GatheredSnoc(effects: seq<Active>, a: Active, targets: seq<string>, now: int)
    ensures var before := Gathered(effects, targets, now);
            Gathered(effects + [a], targets, now) == if Touches(a, targets, now) then Gather(before, a.effect) else before
  {
    assert (effects + [a])[..|effects|] == effects;
  }

  /** An effect gathered anywhere could as well have been gathered last. */
  lemma {:induction false} GatheredLast(effects: seq<Active>, k: nat, targets: seq<string>, now: int)
    requires k < |effects|
    ensures var others, a := effects[..k] + effects[k + 1..], effects[k];
            Gathered(effects, targets, now) == Gathered(others + [a], targets, now)
    decreases |effects|
  {
    hide Gather, Gathered, Touches;
    var n := |effects| - 1;
    var others, a, last := effects[..k] + effects[k + 1..], effects[k], effects[n];
    if k == n {
      assert others + [a] == effects;
    } else {
      var init := effects[..n];
      var others' := init[..k] + init[k + 1..];
      GatheredLast(init, k, targets, now);
      assert effects == init + [last] && others == others' + [last];
      GatheredSnoc(init, last, targets, now);
      GatheredSnoc(others', a, targets, now);
      GatheredSnoc(others', last, targets, now);
      GatheredSnoc(others, a, targets, now);
      GatherSwaps(Gathered(others', targets, now), a.effect, last.effect);
    }
  }

  lemma TakenOut(a: seq<Active>, k: nat)
    requires k < |a|
    ensures multiset(a[..k] + a[k + 1..]) == multiset(a) - multiset{a[k]}
  {
    assert a == a[..k] + [a[k]] + a[k + 1..];
  }

  lemma {:induction false} TotalsOrderAside(a: seq<Active>, b: seq<Active>, targets: seq<string>, now: int)
    requires multiset(a) == multiset(b)
    ensures Gathered(a, targets, now) == Gathered(b, targets, now)
    decreases |a|
  {
    assert |a| == |multiset(a)| == |multiset(b)| == |b|;
    if a == [] {
      assert b == [];
    } else {
      hide Gather, Gathered, Touches;
      var n := |a| - 1;
      assert a[n] in multiset(b);
      var k :| 0 <= k < |b| && b[k] == a[n];
      var others := b[..k] + b[k + 1..];
      TakenOut(a, n);
      TakenOut(b, k);
      assert a[..n] + a[n + 1..] == a[..n] && a == a[..n] + [a[n]];
      TotalsOrderAside(a[..n], others, targets, now);
      GatheredLast(b, k, targets, now);
      GatheredSnoc(others, b[k], targets, now);
      GatheredSnoc(a[..n], a[n], targets, now);
    }
  }

  /** Any order of the same effects gives the same value. */
  lemma OrderAside(base: real, targets: seq<string>, a: seq<Active>, b: seq<Active>, now: int)
    requires multiset(a) == multiset(b)
    ensures ValueOf(base, targets, a, now) == ValueOf(base, targets, b, now)
  {
    TotalsOrderAside(a, b, targets, now);
  }

  // ---- Pruning ----

  /** Those not ended by `now`, in order. */
  function RunningEffects(effects: seq<Active>, now: int): seq<Active> {
    if effects == [] then []
    else
      var last := effects[|effects| - 1];
      RunningEffects(effects[..|effects| - 1], now) + if last.ends <= now then [] else [last]
  }

  /** Pruning drops exactly what has ended. */
  lemma {:induction false} PrunedExactly(effects: seq<Active>, now: int)
    ensures forall a :: multiset(RunningEffects(effects, now))[a] == if a.ends <= now then 0 else multiset(effects)[a]
  {
    if effects != [] {
      var init, last := effects[..|effects| - 1], effects[|effects| - 1];
      PrunedExactly(init, now);
      assert effects == init + [last];
    }
  }

  lemma RunningSnoc(effects: seq<Active>, a: Active, now: int)
    ensures RunningEffects(effects + [a], now) == RunningEffects(effects, now) + if a.ends <= now then [] else [a]
  {
    assert (effects + [a])[..|effects|] == effects;
  }

  /** Pruned at one time, the effects give the same values then and ever after. */
  lemma {:induction false} PruningAside(effects: seq<Active>, pruned: int, targets: seq<string>, now: int)
    requires pruned <= now
    ensures Gathered(RunningEffects(effects, pruned), targets, now) == Gathered(effects, targets, now)
    ensures forall base :: ValueOf(base, targets, RunningEffects(effects, pruned), now) == ValueOf(base, targets, effects, now)
  {
    hide Gather;
    if effects != [] {
      var init, last := effects[..|effects| - 1], effects[|effects| - 1];
      PruningAside(init, pruned, targets, now);
      var kept := RunningEffects(init, pruned);
      assert (kept + [last])[..|kept|] == kept;
      assert kept + [] == kept;
    }
  }

  // ---- Using items ----

  /** Rounded to the nearest whole millisecond, halves away from zero. */
  function Milliseconds(seconds: real): int {
    var ms := seconds * 1000.0;
    if ms >= 0.0 then (ms + 0.5).Floor else -((-ms + 0.5).Floor)
  }

  /** What one effect of a use leaves running: nothing when it is instant, or the loadout's. */
  function LastingOne(item: Item, e: Effect, now: int): seq<Active> {
    if e.duration == Seconds then [Active(item.id, e, now, now + Milliseconds(e.seconds))]
    else if e.duration == WhileUsed && item.usable then [Active(item.id, e, now, now + Milliseconds(item.useSeconds))]
    else []
  }

  /** The effects of a use that last. */
  function Lasting(item: Item, effects: seq<Effect>, now: int): seq<Active> {
    if effects == [] then []
    else Lasting(item, effects[..|effects| - 1], now) + LastingOne(item, effects[|effects| - 1], now)
  }

  /** Without what earlier uses of `id` left running. */
  function Without(effects: seq<Active>, id: string): seq<Active> {
    if effects == [] then []
    else
      var last := effects[|effects| - 1];
      Without(effects[..|effects| - 1], id) + if last.item == id && last.effect.duration != Equipped then [] else [last]
  }

  function AfterUse(running: seq<Active>, item: Item, now: int): seq<Active> {
    (if item.refreshes then Without(running, item.id) else running) + Lasting(item, item.effects, now)
  }

  method EffectsAfterUse(running: seq<Active>, item: Item, now: int) returns (after: seq<Active>)
    ensures after == AfterUse(running, item, now)
  {
    after := if item.refreshes then Without(running, item.id) else running;
    hide Milliseconds, Without;
    ghost var kept := after;
    assert kept + [] == kept;
    for i := 0 to |item.effects|
      invariant after == kept + Lasting(item, item.effects[..i], now)
    {
      var e := item.effects[i];
      ghost var before, one := Lasting(item, item.effects[..i], now), LastingOne(item, e, now);
      assert item.effects[..i + 1][..i] == item.effects[..i];
      assert kept + (before + one) == after + one && after + [] == after;
      if e.duration == Seconds {
        after := after + [Active(item.id, e, now, now + Milliseconds(e.seconds))];
      } else if e.duration == WhileUsed && item.usable {
        after := after + [Active(item.id, e, now, now + Milliseconds(item.useSeconds))];
      }
    }
    assert item.effects[..|item.effects|] == item.effects;
  }

  /** One use, offline: what has ended goes first. */
  datatype Use = Use(item: Item, now: int)

  function AfterUses(uses: seq<Use>): seq<Active> {
    if uses == [] then []
    else
      var last := uses[|uses| - 1];
      AfterUse(RunningEffects(AfterUses(uses[..|uses| - 1]), last.now), last.item, last.now)
  }

  /** The effects of one item, in order. */
  function Of(effects: seq<Active>, id: string): seq<Active> {
    if effects == [] then []
    else
      var last := effects[|effects| - 1];
      Of(effects[..|effects| - 1], id) + if last.item == id then [last] else []
  }

  /** The item's last use before the end, if any, pruned by every use since. */
  function LastUse(uses: seq<Use>, id: string): seq<Active> {
    if uses == [] then []
    else
      var last := uses[|uses| - 1];
      if last.item.id == id then Lasting(last.item, last.item.effects, last.now)
      else RunningEffects(LastUse(uses[..|uses| - 1], id), last.now)
  }

  lemma OfSnoc(effects: seq<Active>, a: Active, id: string)
    ensures Of(effects + [a], id) == Of(effects, id) + if a.item == id then [a] else []
  {
    assert (effects + [a])[..|effects|] == effects;
  }

  lemma {:induction false} OfConcat(a: seq<Active>, b: seq<Active>, id: string)
    ensures Of(a + b, id) == Of(a, id) + Of(b, id)
  {
    if b == [] {
      assert a + b == a;
    } else {
      var init, last := b[..|b| - 1], b[|b| - 1];
      assert a + b == (a + init) + [last] && b == init + [last];
      OfConcat(a, init, id);
      OfSnoc(a + init, last, id);
      OfSnoc(init, last, id);
    }
  }

  lemma {:induction false} OfRunning(effects: seq<Active>, id: string, now: int)
    ensures Of(RunningEffects(effects, now), id) == RunningEffects(Of(effects, id), now)
  {
    if effects != [] {
      var init, last := effects[..|effects| - 1], effects[|effects| - 1];
      OfRunning(init, id, now);
      OfSnoc(RunningEffects(init, now), last, id);
      RunningSnoc(Of(init, id), last, now);
      assert RunningEffects(init, now) + [] == RunningEffects(init, now) && Of(init, id) + [] == Of(init, id);
    }
  }

  lemma {:induction false} OfWithout(effects: seq<Active>, id: string, other: string)
    requires forall k | 0 <= k < |effects| :: effects[k].effect.duration != Equipped
    ensures Of(Without(effects, id), other) == if other == id then [] else Of(effects, other)
  {
    if effects != [] {
      var init, last := effects[..|effects| - 1], effects[|effects| - 1];
      OfWithout(init, id, other);
      OfSnoc(Without(init, id), last, other);
      assert Without(init, id) + [] == Without(init, id);
    }
  }

  lemma {:induction false} OfLasting(item: Item, effects: seq<Effect>, now: int, id: string)
    ensures Of(Lasting(item, effects, now), id) == if item.id == id then Lasting(item, effects, now) else []
    ensures forall k | 0 <= k < |Lasting(item, effects, now)| :: Lasting(item, effects, now)[k].effect.duration != Equipped
  {
    if effects != [] {
      var init, one := effects[..|effects| - 1], LastingOne(item, effects[|effects| - 1], now);
      OfLasting(item, init, now, id);
      OfConcat(Lasting(item, init, now), one, id);
      OfOne(item, effects[|effects| - 1], now, id);
    }
  }

  lemma OfOne(item: Item, e: Effect, now: int, id: string)
    ensures Of(LastingOne(item, e, now), id) == if item.id == id then LastingOne(item, e, now) else []
  {}

  lemma {:induction false} NoneEquipped(effects: seq<Active>, now: int, id: string)
    requires forall k | 0 <= k < |effects| :: effects[k].effect.duration != Equipped
    ensures forall k | 0 <= k < |RunningEffects(effects, now)| :: RunningEffects(effects, now)[k].effect.duration != Equipped
    ensures forall k | 0 <= k < |Without(effects, id)| :: Without(effects, id)[k].effect.duration != Equipped
  {
    if effects != [] {
      NoneEquipped(effects[..|effects| - 1], now, id);
    }
  }

  /** One use: a refreshing item keeps only what it leaves now, any other item what it had left running. */
  lemma UsedOnce(before: seq<Active>, item: Item, now: int, id: string)
    requires forall k | 0 <= k < |before| :: before[k].effect.duration != Equipped
    requires item.id == id ==> item.refreshes
    ensures var after := AfterUse(RunningEffects(before, now), item, now);
            && Of(after, id) == (if item.id == id then Lasting(item, item.effects, now) else RunningEffects(Of(before, id), now))
            && forall k | 0 <= k < |after| :: after[k].effect.duration != Equipped
  {
    hide Of, Without, Lasting, RunningEffects;
    var running := RunningEffects(before, now);
    OfRunning(before, id, now);
    NoneEquipped(before, now, item.id);
    NoneEquipped(running, now, item.id);
    var kept, lasting := if item.refreshes then Without(running, item.id) else running, Lasting(item, item.effects, now);
    OfWithout(running, item.id, id);
    OfConcat(kept, lasting, id);
    OfLasting(item, item.effects, now, id);
    assert [] + lasting == lasting && Of(running, id) + [] == Of(running, id);
  }

  /** After any uses, a refreshing item's running effects are those of its last use alone, less what has ended. */
  lemma {:induction false} RefreshedAlone(uses: seq<Use>, id: string)
    requires forall k | 0 <= k < |uses| && uses[k].item.id == id :: uses[k].item.refreshes
    ensures Of(AfterUses(uses), id) == LastUse(uses, id)
    ensures forall k | 0 <= k < |AfterUses(uses)| :: AfterUses(uses)[k].effect.duration != Equipped
  {
    if uses != [] {
      hide Of, AfterUse, Lasting, RunningEffects;
      var n := |uses| - 1;
      RefreshedAlone(uses[..n], id);
      UsedOnce(AfterUses(uses[..n]), uses[n].item, uses[n].now, id);
    }
  }

  // ---- What a use leaves, and for how long ----

  /** To the nearest millisecond, and from halfway away from zero. */
  lemma NearestMillisecond(seconds: real)
    ensures var exact, ms := seconds * 1000.0, Milliseconds(seconds) as real;
            && -0.5 <= ms - exact <= 0.5
            && (ms - exact == 0.5 ==> exact > 0.0) && (ms - exact == -0.5 ==> exact < 0.0)
  {}

  lemma {:induction false} InLasting(item: Item, effects: seq<Effect>, now: int, a: Active)
    ensures a in Lasting(item, effects, now) <==>
            && a.item == item.id && a.started == now
            && exists k :: 0 <= k < |effects| && effects[k] == a.effect
                 && ((a.effect.duration == Seconds && a.ends == now + Milliseconds(a.effect.seconds))
                     || (a.effect.duration == WhileUsed && item.usable && a.ends == now + Milliseconds(item.useSeconds)))
  {
    hide Milliseconds;
    if effects != [] {
      var n := |effects| - 1;
      InLasting(item, effects[..n], now, a);
      assert forall k | 0 <= k < n :: effects[..n][k] == effects[k];
      assert a in LastingOne(item, effects[n], now) <==>
             a.item == item.id && a.started == now && effects[n] == a.effect
             && ((a.effect.duration == Seconds && a.ends == now + Milliseconds(a.effect.seconds))
                 || (a.effect.duration == WhileUsed && item.usable && a.ends == now + Milliseconds(item.useSeconds)));
    }
  }

  lemma {:induction false} InWithout(effects: seq<Active>, id: string, a: Active)
    ensures a in Without(effects, id) <==> a in effects && !(a.item == id && a.effect.duration != Equipped)
  {
    if effects != [] {
      InWithout(effects[..|effects| - 1], id, a);
      assert effects == effects[..|effects| - 1] + [effects[|effects| - 1]];
    }
  }

  /**
    What runs after a use: all that ran, but of a refreshing item what it had left running
    (never what the loadout gives); and from now on each of its effects that lasts for
    seconds, or while a usable item is used, until then.
  */
  lemma UseLeaves(running: seq<Active>, item: Item, now: int, a: Active)
    ensures a in AfterUse(running, item, now) <==>
            || (a in running && !(item.refreshes && a.item == item.id && a.effect.duration != Equipped))
            || (a.item == item.id && a.started == now
                && exists k :: 0 <= k < |item.effects| && item.effects[k] == a.effect
                     && ((a.effect.duration == Seconds && a.ends == now + Milliseconds(a.effect.seconds))
                         || (a.effect.duration == WhileUsed && item.usable && a.ends == now + Milliseconds(item.useSeconds))))
  {
    hide Milliseconds, Lasting, Without;
    InLasting(item, item.effects, now, a);
    InWithout(running, item.id, a);
  }
}
