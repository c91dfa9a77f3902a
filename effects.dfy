/** Item effects (the helpers of inventory_system.py): `parse_effect_string`, which turns
    "stat: value, stat2: value2" into an insertion-ordered dictionary, and `apply_stat_effect`,
    which adds a value to one key of the character dictionary. */
module Effects {
  import opened Outcomes
  import opened Text
  import opened Characters

  // ---------------------------------------------------------------------------
  // Effect dictionaries
  // ---------------------------------------------------------------------------

  /** A Python dict from stat name to amount, in insertion order. */
  type Effects = seq<(string, int)>

  /** The stat names of `es`. */
  function KeySet(es: Effects): set<string> {
    if es == [] then {} else {es[0].0} + KeySet(es[1..])
  }

  /** No stat name occurs twice, as in any dict. */
  predicate UniqueKeys(es: Effects) {
    es == [] || (es[0].0 !in KeySet(es[1..]) && UniqueKeys(es[1..]))
  }

  /** `effects.get(k)`. */
  function Lookup(es: Effects, k: string): (r: Option<int>)
    ensures r.Some? <==> k in KeySet(es)
  {
    if es == [] then None
    else if es[0].0 == k then Some(es[0].1)
    else Lookup(es[1..], k)
  }

  /** `effects[k] = v`: a key already present keeps its place, a new key goes last. */
  function Put(es: Effects, k: string, v: int): (r: Effects)
    ensures KeySet(r) == KeySet(es) + {k}
    ensures UniqueKeys(es) ==> UniqueKeys(r)
    ensures k !in KeySet(es) ==> r == es + [(k, v)]
  {
    if es == [] then [(k, v)]
    else if es[0].0 == k then [(k, v)] + es[1..]
    else
      var t := Put(es[1..], k, v);
      assert ([es[0]] + t)[1..] == t;
      assert k !in KeySet(es) ==> es + [(k, v)] == [es[0]] + (es[1..] + [(k, v)]);
      [es[0]] + t
  }

  /** After `effects[k] = v`, `k` reads `v` and every other key reads as before. */
  lemma {:induction false} PutLookup(es: Effects, k: string, v: int, j: string)
    ensures Lookup(Put(es, k, v), j) == if j == k then Some(v) else Lookup(es, j)
  {
    if es != [] && es[0].0 != k {
      PutLookup(es[1..], k, v, j);
      assert ([es[0]] + Put(es[1..], k, v))[1..] == Put(es[1..], k, v);
    }
  }

  // ---------------------------------------------------------------------------
  // Parsing
  // ---------------------------------------------------------------------------

  /** One comma-separated piece: skipped (None) when it has no ':'; otherwise the stripped text
      before the first ':' and `int()` of the stripped rest, a ValueError when that is no
      integer. */
  function PairEntry(p: string): Option<Result<(string, int)>> {
    if !Contains(p, ":") then None
    else
      var (stat, value) := SplitOnce(p, ":");
      match ParseInt(Strip(value))
      case None => Some(Err(ValueError))
      case Some(n) => Some(Ok((Strip(stat), n)))
  }

  predicate PairParses(p: string) {
    PairEntry(p).None? || PairEntry(p).value.Ok?
  }

  /** The amount the LAST well-formed piece naming `k` assigns, if any: the reference for
      "a later duplicate stat overwrites an earlier one". */
  function LastFor(ps: seq<string>, k: string): Option<int> {
    if ps == [] then None
    else
      var later := LastFor(ps[1..], k);
      if later.Some? then later
      else match PairEntry(ps[0])
        case Some(Ok((stat, n))) => if stat == k then Some(n) else None
        case _ => None
  }

  /** The loop of `parse_effect_string` over the pieces, filling `acc`. */
  function ParsePairs(ps: seq<string>, acc: Effects): (r: Result<Effects>)
    ensures r.Ok? <==> forall p :: p in ps ==> PairParses(p)
    ensures r.Err? ==> r.error == ValueError
    ensures r.Ok? && UniqueKeys(acc) ==> UniqueKeys(r.value)
  {
    if ps == [] then Ok(acc)
    else
      AllPiecesParse(ps);
      match PairEntry(ps[0])
      case None => ParsePairs(ps[1..], acc)
      case Some(Err(e)) => Err(e)
      case Some(Ok((stat, n))) => ParsePairs(ps[1..], Put(acc, stat, n))
  }

  /** Every piece parses exactly when the first does and every later one does. */
  lemma AllPiecesParse(ps: seq<string>)
    requires ps != []
    ensures (forall p :: p in ps ==> PairParses(p))
            <==> PairParses(ps[0]) && forall p :: p in ps[1..] ==> PairParses(p)
  {
    assert forall p :: p in ps <==> p == ps[0] || p in ps[1..];
  }

  /** `parse_effect_string`: the empty string gives no effects; otherwise the comma-separated
      pieces are parsed in order. */
  function ParseEffectString(s: string): (r: Result<Effects>)
    ensures s == "" ==> r == Ok([])
    ensures s != "" ==> (r.Ok? <==> forall p :: p in Split(s, ",") ==> PairParses(p))
    ensures r.Err? ==> r.error == ValueError
    ensures r.Ok? ==> UniqueKeys(r.value)
  {
    if s == "" then Ok([]) else ParsePairs(Split(s, ","), [])
  }

  /** The parsing loop itself: one piece at a time into the growing dictionary. */
  method ParseEffects(s: string) returns (r: Result<Effects>)
    ensures r == ParseEffectString(s)
  {
    if s == "" {
      return Ok([]);
    }
    var pieces := Split(s, ",");
    var effects: Effects := [];
    var i := 0;
    while i < |pieces|
      invariant 0 <= i <= |pieces|
      invariant ParsePairs(pieces, []) == ParsePairs(pieces[i..], effects)
    {
      assert pieces[i..][1..] == pieces[i + 1..];
      match PairEntry(pieces[i]) {
        case None =>
        case Some(Err(e)) =>
          return Err(ValueError);
        case Some(Ok((stat, n))) =>
          effects := Put(effects, stat, n);
      }
      i := i + 1;
    }
    return Ok(effects);
  }

  /** Each stat read from the parsed dictionary is the one its last piece assigned, or the
      earlier value when no piece names it. */
  lemma {:induction false} ParsePairsLookup(ps: seq<string>, acc: Effects, k: string)
    requires ParsePairs(ps, acc).Ok?
    ensures Lookup(ParsePairs(ps, acc).value, k) ==
      if LastFor(ps, k).Some? then LastFor(ps, k) else Lookup(acc, k)
  {
    if ps != [] {
      match PairEntry(ps[0])
      case None =>
        ParsePairsLookup(ps[1..], acc, k);
      case Some(Ok((stat, n))) =>
        ParsePairsLookup(ps[1..], Put(acc, stat, n), k);
        PutLookup(acc, stat, n, k);
    }
  }

  /** A later duplicate stat overwrites an earlier one: every stat of the result carries the
      amount of the last piece that names it, and a stat no piece names is absent. */
  lemma ParseEffectStringLastWins(s: string, k: string)
    requires ParseEffectString(s).Ok?
    ensures s == "" ==> Lookup(ParseEffectString(s).value, k).None?
    ensures s != "" ==> Lookup(ParseEffectString(s).value, k) == LastFor(Split(s, ","), k)
  {
    if s != "" {
      ParsePairsLookup(Split(s, ","), [], k);
    }
  }

  /** The text of one effect, `stat:value`. */
  function RenderPair(e: (string, int)): string {
    e.0 + ":" + IntToString(e.1)
  }

  function RenderPieces(es: Effects): (ps: seq<string>)
    ensures |ps| == |es|
  {
    if es == [] then [] else [RenderPair(es[0])] + RenderPieces(es[1..])
  }

  /** Effects written back as "stat:value,stat2:value2". */
  function RenderEffects(es: Effects): string {
    Join(RenderPieces(es), ",")
  }

  /** A stat name the effect grammar can carry: no ',' or ':', and no surrounding whitespace. */
  predicate PlainStatName(k: string) {
    ',' !in k && ':' !in k && (k == [] || (!IsSpace(k[0]) && !IsSpace(k[|k| - 1])))
  }

  lemma IntToStringHasNoPunctuation(n: int)
    ensures ',' !in IntToString(n) && ':' !in IntToString(n)
  {
    var s := IntToString(n);
    var digits := if n < 0 then NatToString(-n) else NatToString(n);
    assert AllDigits(digits);
    assert s == if n < 0 then "-" + digits else digits;
    assert forall i :: 0 <= i < |s| ==> s[i] == '-' || IsDigit(s[i]);
  }

  /** `(a + c + b).split(c, 1) == [a, b]` when `c` does not occur in `a`. */
  lemma SplitOnceAtChar(a: string, c: char, b: string)
    requires c !in a
    ensures Contains(a + [c] + b, [c]) && SplitOnce(a + [c] + b, [c]) == (a, b)
  {
    var s := a + [c] + b;
    assert s[|a|] == c;
    CharOccurs(s, c);
    var (p0, p1) := SplitOnce(s, [c]);
    CharOccurs(p0, c);
    assert |p0| == |a|;
    assert p0 == s[..|a|] == a;
    assert p1 == s[|a| + 1..] == b;
  }

  /** A rendered pair parses back to itself. */
  lemma PairEntryRender(e: (string, int))
    requires PlainStatName(e.0)
    ensures PairEntry(RenderPair(e)) == Some(Ok(e))
  {
    var v := IntToString(e.1);
    assert RenderPair(e) == e.0 + [':'] + v;
    SplitOnceAtChar(e.0, ':', v);
    StripUnchanged(e.0);
    StripUnchanged(v);
    IntToStringRoundTrip(e.1);
  }

  lemma RenderPairHasNoComma(e: (string, int))
    requires ',' !in e.0
    ensures ',' !in RenderPair(e) && RenderPair(e) != []
  {
    IntToStringHasNoPunctuation(e.1);
  }

  lemma {:induction false} KeySetConcat(a: Effects, b: Effects)
    ensures KeySet(a + b) == KeySet(a) + KeySet(b)
    ensures UniqueKeys(a + b) ==> UniqueKeys(b) && KeySet(a) !! KeySet(b)
  {
    if a == [] {
      assert a + b == b;
    } else {
      assert (a + b)[1..] == a[1..] + b;
      KeySetConcat(a[1..], b);
    }
  }

  /** Parsing the rendered pieces of `rest` after `done` has been filled gives `done + rest`. */
  lemma {:induction false} ParsePairsRendered(done: Effects, rest: Effects)
    requires UniqueKeys(done + rest)
    requires forall e :: e in rest ==> PlainStatName(e.0)
    ensures ParsePairs(RenderPieces(rest), done) == Ok(done + rest)
    decreases |rest|
  {
    if rest == [] {
      assert done + rest == done;
    } else {
      RenderedStep(done, rest);
      ShiftFirst(done, rest);
      assert forall x :: x in rest[1..] ==> x in rest;
      ParsePairsRendered(done + [rest[0]], rest[1..]);
    }
  }

  lemma RenderedStep(done: Effects, rest: Effects)
    requires rest != [] && UniqueKeys(done + rest) && PlainStatName(rest[0].0)
    ensures ParsePairs(RenderPieces(rest), done) == ParsePairs(RenderPieces(rest[1..]), done + [rest[0]])
  {
    var e := rest[0];
    PairEntryRender(e);
    KeySetConcat(done, rest);
    assert e.0 in KeySet(rest);
    var ps := RenderPieces(rest);
    assert ps[0] == RenderPair(e) && ps[1..] == RenderPieces(rest[1..]);
    ParsePairsStep(ps, done, e);
  }

  lemma ShiftFirst<T>(done: seq<T>, rest: seq<T>)
    requires rest != []
    ensures done + rest == (done + [rest[0]]) + rest[1..]
  {
    assert rest == [rest[0]] + rest[1..];
  }

  lemma {:induction false} RenderPiecesHaveNoComma(es: Effects)
    requires forall e :: e in es ==> ',' !in e.0
    ensures forall p :: p in RenderPieces(es) ==> ',' !in p
    ensures es != [] ==> RenderPieces(es)[0] != []
  {
    if es != [] {
      RenderPairHasNoComma(es[0]);
      assert forall e :: e in es[1..] ==> e in es;
      RenderPiecesHaveNoComma(es[1..]);
      var ps := RenderPieces(es);
      assert ps == [RenderPair(es[0])] + RenderPieces(es[1..]);
      forall p | p in ps ensures ',' !in p {
        if p != ps[0] {
          assert p in RenderPieces(es[1..]);
        }
      }
    }
  }

  /** Rendered effects split back into their rendered pieces. */
  lemma ParseRendered(es: Effects)
    requires es != [] && forall e :: e in es ==> ',' !in e.0
    ensures ParseEffectString(RenderEffects(es)) == ParsePairs(RenderPieces(es), [])
  {
    var pieces := RenderPieces(es);
    RenderPiecesHaveNoComma(es);
    SplitJoin(pieces, ',');
    JoinNonEmpty(pieces, ",");
  }

  /** Writing effects out and parsing them back gives the same dictionary, in the same order. */
  lemma EffectRoundTrip(es: Effects)
    requires UniqueKeys(es)
    requires forall e :: e in es ==> PlainStatName(e.0)
    ensures ParseEffectString(RenderEffects(es)) == Ok(es)
  {
    if es != [] {
      ParseRendered(es);
      assert [] + es == es;
      ParsePairsRendered([], es);
    }
  }

  lemma JoinNonEmpty(parts: seq<string>, sep: string)
    requires |parts| >= 1 && parts[0] != []
    ensures Join(parts, sep) != []
  {
  }

  /** When the same stat is named twice, the second amount is the one kept: "k:a,k:b" parses
      to {k: b}. */
  lemma LaterDuplicateWins(k: string, a: int, b: int)
    requires PlainStatName(k)
    ensures ParseEffectString(RenderEffects([(k, a), (k, b)])) == Ok([(k, b)])
  {
    var es := [(k, a), (k, b)];
    ParseRendered(es);
    RenderTwoPieces((k, a), (k, b));
    PairEntryRender((k, a));
    PairEntryRender((k, b));
    ParseDuplicatePieces(RenderPair((k, a)), RenderPair((k, b)), k, a, b);
  }

  lemma RenderTwoPieces(e1: (string, int), e2: (string, int))
    ensures RenderPieces([e1, e2]) == [RenderPair(e1), RenderPair(e2)]
  {
    assert [e1, e2][1..] == [e2] && [e2][1..] == [];
  }

  lemma ParseDuplicatePieces(p: string, q: string, k: string, a: int, b: int)
    requires PairEntry(p) == Some(Ok((k, a))) && PairEntry(q) == Some(Ok((k, b)))
    ensures ParsePairs([p, q], []) == Ok([(k, b)])
  {
    var first := Put([], k, a);
    assert first == [(k, a)];
    var second := Put(first, k, b);
    assert second == [(k, b)];
    ParsePairsStep([p, q], [], (k, a));
    assert [p, q][1..] == [q];
    ParsePairsStep([q], first, (k, b));
    assert [q][1..] == [];
  }

  /** One well-formed piece is parsed into the dictionary and the rest follows. */
  lemma ParsePairsStep(ps: seq<string>, acc: Effects, e: (string, int))
    requires ps != [] && PairEntry(ps[0]) == Some(Ok(e))
    ensures ParsePairs(ps, acc) == ParsePairs(ps[1..], Put(acc, e.0, e.1))
  {
  }

  // ---------------------------------------------------------------------------
  // Applying one stat
  // ---------------------------------------------------------------------------

  /** Keys of the character dictionary whose values are not integers: `+=` on them raises
      TypeError. */
  predicate IsNonNumericKey(k: string) {
    k == "name" || k == "class" || k == "inventory" || k == "active_quests"
    || k == "completed_quests" || k == "equipped_weapon" || k == "equipped_armor"
  }

  /** Integer keys the record stores in named fields. */
  predicate IsNamedStat(k: string) {
    k == "level" || k == "health" || k == "max_health" || k == "strength" || k == "magic"
    || k == "experience" || k == "gold"
  }

  /** `extraStats` only holds keys that are neither named fields nor non-integer keys. */
  predicate WellKeyed(d: CharacterData) {
    forall k :: k in d.extraStats ==> !IsNamedStat(k) && !IsNonNumericKey(k)
  }

  /** The integer part of the character dictionary. */
  function Stats(d: CharacterData): map<string, int> {
    d.extraStats + map["level" := d.level, "health" := d.health, "max_health" := d.maxHealth,
                       "strength" := d.strength, "magic" := d.magic,
                       "experience" := d.experience, "gold" := d.gold]
  }

  /** `character.get(k, 0)` for an integer key. */
  function StatValue(d: CharacterData, k: string): int {
    if k == "level" then d.level
    else if k == "health" then d.health
    else if k == "max_health" then d.maxHealth
    else if k == "strength" then d.strength
    else if k == "magic" then d.magic
    else if k == "experience" then d.experience
    else if k == "gold" then d.gold
    else if k in d.extraStats then d.extraStats[k]
    else 0
  }

  /** `min(max(h, 0), max_health)`: never above the maximum; the input itself when it is in
      range, the maximum when the input reaches it, and 0 for a non-positive input when the
      maximum is not negative. */
  function ClampHealth(h: int, maxHealth: int): (r: int)
    ensures r <= maxHealth
    ensures maxHealth >= 0 ==> 0 <= r <= maxHealth
    ensures 0 <= h <= maxHealth ==> r == h
    ensures h >= maxHealth ==> r == maxHealth
    ensures h <= 0 && maxHealth >= 0 ==> r == 0
    ensures r == maxHealth || r == (if h < 0 then 0 else h)
  {
    var low := if h < 0 then 0 else h;
    if low < maxHealth then low else maxHealth
  }

  /** `apply_stat_effect` on the dictionary view: a missing key counts as 0, the amount is
      added, and health is then clamped to [0, max_health]; a non-integer key raises. */
  function ApplyStat(m: map<string, int>, stat: string, v: int): (r: Result<map<string, int>>)
  {
    if IsNonNumericKey(stat) then Err(TypeError)
    else
      var m1 := m[stat := (if stat in m then m[stat] else 0) + v];
      if stat == "health" then
        Ok(m1["health" := ClampHealth(m1["health"], if "max_health" in m1 then m1["max_health"] else m1["health"])])
      else Ok(m1)
  }

  /** The other record fields: what no stat effect can change. */
  predicate SameNonStats(a: CharacterData, b: CharacterData) {
    a.name == b.name && a.charClass == b.charClass && a.inventory == b.inventory
    && a.activeQuests == b.activeQuests && a.completedQuests == b.completedQuests
    && a.equippedWeapon == b.equippedWeapon && a.equippedArmor == b.equippedArmor
  }

  /** Records that agree on every integer field and on the extra stats have the same stats. */
  lemma SameStatValues(a: CharacterData, b: CharacterData)
    requires a.level == b.level && a.health == b.health && a.maxHealth == b.maxHealth
    requires a.strength == b.strength && a.magic == b.magic && a.experience == b.experience
    requires a.gold == b.gold && a.extraStats == b.extraStats
    ensures forall k :: StatValue(a, k) == StatValue(b, k)
  {
  }

  /** `apply_stat_effect` on the record: raises TypeError, changing nothing, for a non-integer
      key; otherwise adds `v` to that one stat (health clamped) and leaves the other fields
      alone (the other stats: `ApplyStatOthersUnchanged`). */
  function ApplyStatTo(d: CharacterData, stat: string, v: int): (r: Result<CharacterData>)
    ensures r.Err? <==> IsNonNumericKey(stat)
    ensures r.Err? ==> r.error == TypeError
    ensures r.Ok? ==> SameNonStats(d, r.value)
    ensures r.Ok? && stat != "health" ==> StatValue(r.value, stat) == StatValue(d, stat) + v
    ensures r.Ok? && stat == "health" ==> r.value.health == ClampHealth(d.health + v, d.maxHealth)
  {
    if IsNonNumericKey(stat) then Err(TypeError)
    else if stat == "level" then Ok(d.(level := d.level + v))
    else if stat == "health" then Ok(d.(health := ClampHealth(d.health + v, d.maxHealth)))
    else if stat == "max_health" then Ok(d.(maxHealth := d.maxHealth + v))
    else if stat == "strength" then Ok(d.(strength := d.strength + v))
    else if stat == "magic" then Ok(d.(magic := d.magic + v))
    else if stat == "experience" then Ok(d.(experience := d.experience + v))
    else if stat == "gold" then Ok(d.(gold := d.gold + v))
    else
      var previous := if stat in d.extraStats then d.extraStats[stat] else 0;
      Ok(d.(extraStats := d.extraStats[stat := previous + v]))
  }

  /** A stat update touches that stat only: every other stat reads as before. */
  lemma ApplyStatOthersUnchanged(d: CharacterData, stat: string, v: int)
    requires !IsNonNumericKey(stat)
    ensures forall k :: k != stat ==> StatValue(ApplyStatTo(d, stat, v).value, k) == StatValue(d, k)
  {
    var a := ApplyStatTo(d, stat, v).value;
    if IsNamedStat(stat) {
      assert a.extraStats == d.extraStats;
    } else {
      assert a == d.(extraStats := a.extraStats);
      assert forall k :: k != stat ==> (k in a.extraStats <==> k in d.extraStats);
    }
    forall k | k != stat
      ensures StatValue(a, k) == StatValue(d, k)
    {
    }
  }

  /** A stat update never puts a named or non-integer key among the extra stats. */
  lemma ApplyStatKeepsWellKeyed(d: CharacterData, stat: string, v: int)
    requires !IsNonNumericKey(stat)
    ensures WellKeyed(d) ==> WellKeyed(ApplyStatTo(d, stat, v).value)
  {
  }

  /** On a well-keyed record the dictionary view holds the named stats and the extra ones,
      each with its `StatValue`. */
  lemma StatsView(d: CharacterData)
    requires WellKeyed(d)
    ensures forall k :: k in Stats(d) <==> IsNamedStat(k) || k in d.extraStats
    ensures forall k :: k in Stats(d) ==> Stats(d)[k] == StatValue(d, k)
  {
  }

  /** The record-level operation is the dictionary-level one: on a well-keyed record both
      raise together, and otherwise the new record's integer view is the updated map. */
  lemma ApplyStatAgrees(d: CharacterData, stat: string, v: int)
    requires WellKeyed(d)
    ensures ApplyStatTo(d, stat, v).Err? <==> ApplyStat(Stats(d), stat, v).Err?
    ensures ApplyStatTo(d, stat, v).Ok? ==>
      Stats(ApplyStatTo(d, stat, v).value) == ApplyStat(Stats(d), stat, v).value
  {
    if !IsNonNumericKey(stat) {
      var a := ApplyStatTo(d, stat, v).value;
      var m := ApplyStat(Stats(d), stat, v).value;
      StatKeysAgree(d, stat, v);
      StatValuesAgree(d, stat, v);
      assert Stats(a) == m;
    }
  }

  lemma StatKeysAgree(d: CharacterData, stat: string, v: int)
    requires WellKeyed(d) && !IsNonNumericKey(stat)
    ensures Stats(ApplyStatTo(d, stat, v).value).Keys == ApplyStat(Stats(d), stat, v).value.Keys
  {
    var a := ApplyStatTo(d, stat, v).value;
    ApplyStatKeepsWellKeyed(d, stat, v);
    ApplyStatOthersUnchanged(d, stat, v);
    StatsView(d);
    StatsView(a);
    var m := ApplyStat(Stats(d), stat, v).value;
    forall k
      ensures k in Stats(a) <==> k in Stats(d) || k == stat
    {
      if k != stat {
        assert k in a.extraStats <==> k in d.extraStats;
      }
    }
    assert forall k :: k in m <==> k in Stats(d) || k == stat;
  }

  lemma StatValuesAgree(d: CharacterData, stat: string, v: int)
    requires WellKeyed(d) && !IsNonNumericKey(stat)
    ensures var a := Stats(ApplyStatTo(d, stat, v).value);
      var m := ApplyStat(Stats(d), stat, v).value;
      forall k :: k in a && k in m ==> a[k] == m[k]
  {
    var a := ApplyStatTo(d, stat, v).value;
    var m := ApplyStat(Stats(d), stat, v).value;
    ApplyStatKeepsWellKeyed(d, stat, v);
    ApplyStatOthersUnchanged(d, stat, v);
    StatsView(d);
    StatsView(a);
    var m1 := Stats(d)[stat := (if stat in Stats(d) then Stats(d)[stat] else 0) + v];
    assert stat != "health" ==> m == m1;
    forall k | k in Stats(a) && k in m
      ensures Stats(a)[k] == m[k]
    {
      if k != stat {
        assert m[k] == Stats(d)[k];
      } else if stat != "health" {
        assert StatValue(d, stat) == if stat in Stats(d) then Stats(d)[stat] else 0;
      }
    }
  }

  /** Health stays within [0, max_health] under any stat change other than to max_health. */
  lemma ApplyStatKeepsHealthInRange(d: CharacterData, stat: string, v: int)
    requires 0 <= d.health <= d.maxHealth && stat != "max_health"
    ensures ApplyStatTo(d, stat, v).Ok? ==>
      0 <= ApplyStatTo(d, stat, v).value.health <= ApplyStatTo(d, stat, v).value.maxHealth
  {
    if !IsNonNumericKey(stat) && stat != "health" {
      ApplyStatOthersUnchanged(d, stat, v);
      assert StatValue(ApplyStatTo(d, stat, v).value, "health") == StatValue(d, "health");
      assert StatValue(ApplyStatTo(d, stat, v).value, "max_health") == StatValue(d, "max_health");
    }
  }

  // ---------------------------------------------------------------------------
  // Applying a dictionary of effects
  // ---------------------------------------------------------------------------

  /** `for stat, value in effects.items(): apply_stat_effect(character, stat, ±value)`,
      stopping at the first TypeError with the earlier stats already applied (what it
      guarantees: `ApplyEffectsOutcome`). */
  function ApplyEffectsTo(d: CharacterData, es: Effects, negate: bool): Step<()>
    decreases |es|
  {
    if es == [] then Step(d, Ok(()))
    else
      var (stat, v) := es[0];
      match ApplyStatTo(d, stat, if negate then -v else v)
      case Err(e) => Step(d, Err(e))
      case Ok(d1) => ApplyEffectsTo(d1, es[1..], negate)
  }

  /** The effect loop succeeds exactly when no effect names a non-integer key, fails only
      with TypeError, never touches the fields that are not stats, and keeps the extra
      stats well keyed. */
  lemma {:induction false} ApplyEffectsOutcome(d: CharacterData, es: Effects, negate: bool)
    ensures var s := ApplyEffectsTo(d, es, negate);
      (s.result.Ok? <==> forall i :: 0 <= i < |es| ==> !IsNonNumericKey(es[i].0))
      && (s.result.Err? ==> s.result.error == TypeError)
      && SameNonStats(d, s.after)
      && (WellKeyed(d) ==> WellKeyed(s.after))
    decreases |es|
  {
    if es != [] {
      var amount := if negate then -es[0].1 else es[0].1;
      var r := ApplyStatTo(d, es[0].0, amount);
      ApplyEffectsStep(d, es, negate);
      if r.Ok? {
        ApplyStatKeepsWellKeyed(d, es[0].0, amount);
        var rest := es[1..];
        ApplyEffectsOutcome(r.value, rest, negate);
        assert (forall i :: 0 <= i < |es| ==> !IsNonNumericKey(es[i].0))
               <==> (forall i :: 0 <= i < |rest| ==> !IsNonNumericKey(rest[i].0)) by {
          assert forall i :: 0 <= i < |rest| ==> rest[i] == es[i + 1];
          assert !IsNonNumericKey(es[0].0);
        }
      }
    }
  }

  /** The sum of the amounts `es` assigns to `k`. */
  function SumFor(es: Effects, k: string): int {
    if es == [] then 0 else (if es[0].0 == k then es[0].1 else 0) + SumFor(es[1..], k)
  }

  /** Effects on integer keys other than health add up: every stat moves by the sum of the
      amounts for it, and nothing else changes. */
  lemma {:induction false} ApplyEffectsAdds(d: CharacterData, es: Effects, negate: bool)
    requires forall i :: 0 <= i < |es| ==> !IsNonNumericKey(es[i].0) && es[i].0 != "health"
    ensures var s := ApplyEffectsTo(d, es, negate);
      s.result.Ok? && s.after.health == d.health
      && forall k :: StatValue(s.after, k) == StatValue(d, k) + (if negate then -SumFor(es, k) else SumFor(es, k))
    decreases |es|
  {
    if es != [] {
      var stat := es[0].0;
      var amount := if negate then -es[0].1 else es[0].1;
      var d1 := ApplyStatTo(d, stat, amount).value;
      ApplyEffectsStep(d, es, negate);
      ApplyStatOthersUnchanged(d, stat, amount);
      var rest := es[1..];
      assert forall i :: 0 <= i < |rest| ==> !IsNonNumericKey(rest[i].0) && rest[i].0 != "health" by {
        forall i | 0 <= i < |rest| ensures !IsNonNumericKey(rest[i].0) && rest[i].0 != "health" { assert rest[i] == es[i + 1]; }
      }
      ApplyEffectsAdds(d1, rest, negate);
      forall k ensures StatValue(ApplyEffectsTo(d, es, negate).after, k)
                       == StatValue(d, k) + (if negate then -SumFor(es, k) else SumFor(es, k))
      {
        assert SumFor(es, k) == (if stat == k then es[0].1 else 0) + SumFor(rest, k);
      }
    }
  }

  /** Removing what was applied: applying the same effects negated restores every stat
      (a stat the effects created reads 0 again) and the record's other fields. */
  lemma ApplyEffectsUndo(d: CharacterData, es: Effects)
    requires forall i :: 0 <= i < |es| ==> !IsNonNumericKey(es[i].0) && es[i].0 != "health"
    ensures var on := ApplyEffectsTo(d, es, false);
      var off := ApplyEffectsTo(on.after, es, true);
      on.result.Ok? && off.result.Ok? && SameNonStats(d, off.after)
      && forall k :: StatValue(off.after, k) == StatValue(d, k)
  {
    var on := ApplyEffectsTo(d, es, false);
    ApplyEffectsAdds(d, es, false);
    ApplyEffectsAdds(on.after, es, true);
    ApplyEffectsOutcome(d, es, false);
    ApplyEffectsOutcome(on.after, es, true);
  }

  /** Health stays within [0, max_health] through any effects that leave max_health alone. */
  lemma {:induction false} ApplyEffectsKeepHealthInRange(d: CharacterData, es: Effects, negate: bool)
    requires 0 <= d.health <= d.maxHealth
    requires forall i :: 0 <= i < |es| ==> es[i].0 != "max_health"
    ensures var a := ApplyEffectsTo(d, es, negate).after; 0 <= a.health <= a.maxHealth
    decreases |es|
  {
    if es != [] {
      var amount := if negate then -es[0].1 else es[0].1;
      var r := ApplyStatTo(d, es[0].0, amount);
      ApplyEffectsStep(d, es, negate);
      if r.Ok? {
        ApplyStatKeepsHealthInRange(d, es[0].0, amount);
        var rest := es[1..];
        assert forall i :: 0 <= i < |rest| ==> rest[i].0 != "max_health" by {
          forall i | 0 <= i < |rest| ensures rest[i].0 != "max_health" { assert rest[i] == es[i + 1]; }
        }
        ApplyEffectsKeepHealthInRange(r.value, rest, negate);
      }
    }
  }

  /** `apply_stat_effect`, updating the one field. */
  method ApplyStatEffect(c: Character, stat: string, v: int) returns (r: Result<()>)
    modifies c
    ensures ApplyStatTo(old(c.Snapshot()), stat, v).Ok? ==>
      r.Ok? && c.Snapshot() == ApplyStatTo(old(c.Snapshot()), stat, v).value
    ensures ApplyStatTo(old(c.Snapshot()), stat, v).Err? ==>
      r == Err(TypeError) && c.Snapshot() == old(c.Snapshot())
  {
    if IsNonNumericKey(stat) {
      return Err(TypeError);
    }
    if stat == "level" {
      c.level := c.level + v;
    } else if stat == "health" {
      c.health := ClampHealth(c.health + v, c.maxHealth);
    } else if stat == "max_health" {
      c.maxHealth := c.maxHealth + v;
    } else if stat == "strength" {
      c.strength := c.strength + v;
    } else if stat == "magic" {
      c.magic := c.magic + v;
    } else if stat == "experience" {
      c.experience := c.experience + v;
    } else if stat == "gold" {
      c.gold := c.gold + v;
    } else {
      var before := if stat in c.extraStats then c.extraStats[stat] else 0;
      c.extraStats := c.extraStats[stat := before + v];
    }
    return Ok(());
  }

  /** One step of the effect loop. */
  lemma ApplyEffectsStep(d: CharacterData, es: Effects, negate: bool)
    requires es != []
    ensures var r := ApplyStatTo(d, es[0].0, if negate then -es[0].1 else es[0].1);
      ApplyEffectsTo(d, es, negate)
        == if r.Err? then Step(d, Err(TypeError)) else ApplyEffectsTo(r.value, es[1..], negate)
  {
  }

  /** The effect loop, one stat at a time. */
  method ApplyEffectList(c: Character, es: Effects, negate: bool) returns (r: Result<()>)
    modifies c
    ensures Step(c.Snapshot(), r) == ApplyEffectsTo(old(c.Snapshot()), es, negate)
  {
    ghost var target := ApplyEffectsTo(c.Snapshot(), es, negate);
    var i := 0;
    while i < |es|
      invariant 0 <= i <= |es|
      invariant target == ApplyEffectsTo(c.Snapshot(), es[i..], negate)
    {
      ghost var before := c.Snapshot();
      LoopStep(before, es, i, negate);
      var step := ApplyStatEffect(c, es[i].0, if negate then -es[i].1 else es[i].1);
      if step.Err? {
        return Err(TypeError);
      }
      i := i + 1;
    }
    return Ok(());
  }

  /** The effect loop's step at position `i`, in the terms the loop uses. */
  lemma LoopStep(d: CharacterData, es: Effects, i: nat, negate: bool)
    requires i < |es|
    ensures var r := ApplyStatTo(d, es[i].0, if negate then -es[i].1 else es[i].1);
      ApplyEffectsTo(d, es[i..], negate)
        == if r.Err? then Step(d, Err(TypeError)) else ApplyEffectsTo(r.value, es[i + 1..], negate)
  {
    ApplyEffectsStep(d, es[i..], negate);
    assert es[i..][1..] == es[i + 1..];
  }
}
