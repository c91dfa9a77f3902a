/** game_data.py without the file system: the `KEY: value` line grammar of the quest and item
    files, the block parsers, the record validators, and the step from a file's content to
    its records keyed by id. */
module GameData {
  import opened Outcomes
  import opened Text
  import opened Lists

  /** A value in a parsed record: the stripped text, or the integer for a numeric key. */
  datatype Field = TextField(text: string) | IntField(n: int)

  /** A parsed block: lower-case keys to values. */
  type Record = map<string, Field>

  /** The keys `parse_quest_block` converts with `int()`. */
  const QuestIntKeys: set<string> := {"reward_xp", "reward_gold", "required_level"}

  /** The key `parse_item_block` converts with `int()`. */
  const ItemIntKeys: set<string> := {"cost"}

  // ---------------------------------------------------------------------------
  // Lines and blocks
  // ---------------------------------------------------------------------------

  /** One line: it must contain ": "; the key is the stripped, lower-cased text before the
      first ": ", the value the stripped rest, converted to an integer for a numeric key. */
  function ParseLine(line: string, intKeys: set<string>): (r: Result<(string, Field)>)
    ensures r.Err? ==> r.error.InvalidDataFormat?
                       && (r.error.issue.MalformedLine? || r.error.issue.NotInteger?)
    ensures !Contains(line, ": ") ==> r == Err(InvalidDataFormat(MalformedLine))
    ensures r.Ok? ==> (r.value.0 in intKeys <==> r.value.1.IntField?)
  {
    if !Contains(line, ": ") then Err(InvalidDataFormat(MalformedLine))
    else
      var (before, after) := SplitOnce(line, ": ");
      var key := Lower(Strip(before));
      var value := Strip(after);
      if key in intKeys then
        match ParseInt(value)
        case None => Err(InvalidDataFormat(NotInteger(key)))
        case Some(n) => Ok((key, IntField(n)))
      else Ok((key, TextField(value)))
  }

  /** What a line reads as is normalised: the key is lower case with no surrounding
      whitespace, a text value has no surrounding whitespace, and a numeric key whose
      stripped value is not an integer is reported as NotInteger, naming the key. */
  lemma ParseLineNormalises(line: string, intKeys: set<string>)
    ensures var r := ParseLine(line, intKeys);
      (r.Ok? ==> Lower(r.value.0) == r.value.0 && NoEdgeSpace(r.value.0))
      && (r.Ok? && r.value.1.TextField? ==> NoEdgeSpace(r.value.1.text))
      && (Contains(line, ": ") ==>
            var key := Lower(Strip(SplitOnce(line, ": ").0));
            (key in intKeys && ParseInt(Strip(SplitOnce(line, ": ").1)).None?
             <==> r == Err(InvalidDataFormat(NotInteger(key)))))
  {
    if Contains(line, ": ") {
      var (before, after) := SplitOnce(line, ": ");
      var key, value := Lower(Strip(before)), Strip(after);
      LowerFacts(Strip(before));
      assert Lower(key) == key && NoEdgeSpace(key);
      if key in intKeys {
        assert ParseLine(line, intKeys) ==
          match ParseInt(value)
          case None => Err(InvalidDataFormat(NotInteger(key)))
          case Some(n) => Ok((key, IntField(n)));
      } else {
        assert ParseLine(line, intKeys) == Ok((key, TextField(value)));
      }
    }
  }

  /** A key holds an integer exactly when it is one of the numeric keys. */
  predicate TypedEntry(e: (string, Field), intKeys: set<string>) {
    e.0 in intKeys <==> e.1.IntField?
  }

  predicate TypedRecord(r: Record, intKeys: set<string>) {
    forall k :: k in r ==> TypedEntry((k, r[k]), intKeys)
  }

  /** What reading one line can give: a typed entry, or a format error about the line. */
  predicate LineOutcome(e: Result<(string, Field)>, intKeys: set<string>) {
    match e
    case Ok(entry) => TypedEntry(entry, intKeys)
    case Err(error) => error.InvalidDataFormat? && (error.issue.MalformedLine? || error.issue.NotInteger?)
  }

  /** The result of reading each line of a block on its own. */
  function ReadLines(lines: seq<string>, intKeys: set<string>): (entries: seq<Result<(string, Field)>>)
    ensures |entries| == |lines|
    ensures forall i :: 0 <= i < |lines| ==> entries[i] == ParseLine(lines[i], intKeys)
    ensures forall i :: 0 <= i < |lines| ==> LineOutcome(entries[i], intKeys)
  {
    seq(|lines|, i requires 0 <= i < |lines| => ParseLine(lines[i], intKeys))
  }

  /** The loop shared by the block parsers (over lines) and the loaders (over blocks), run
      on the readings of its items: the first bad item stops it with that item's error, and
      each good item is stored under its key, so a later item with the same key overwrites
      an earlier one. */
  function StoreEntries<V>(entries: seq<Result<(string, V)>>, acc: map<string, V>)
    : (r: Result<map<string, V>>)
    ensures r.Ok? <==> forall i :: 0 <= i < |entries| ==> entries[i].Ok?
    ensures r.Err? ==> exists i :: (0 <= i < |entries| && entries[i] == Err(r.error)
                                    && forall j :: 0 <= j < i ==> entries[j].Ok?)
    decreases |entries|
  {
    if entries == [] then Ok(acc)
    else
      assert forall i :: 1 <= i < |entries| ==> entries[i] == entries[1..][i - 1];
      match entries[0]
      case Err(e) => Err(e)
      case Ok((key, value)) =>
        var r := StoreEntries(entries[1..], acc[key := value]);
        if r.Err? then
          var i :| 0 <= i < |entries[1..]| && entries[1..][i] == Err(r.error)
                   && forall j :: 0 <= j < i ==> entries[1..][j].Ok?;
          assert entries[i + 1] == Err(r.error);
          r
        else r
  }

  /** Keys that hold integers exactly when they are numeric stay so through the loop. */
  lemma {:induction false} StoreEntriesTyped(entries: seq<Result<(string, Field)>>, acc: Record,
                                             intKeys: set<string>)
    requires StoreEntries(entries, acc).Ok? && TypedRecord(acc, intKeys)
    requires forall i :: 0 <= i < |entries| ==> LineOutcome(entries[i], intKeys)
    ensures TypedRecord(StoreEntries(entries, acc).value, intKeys)
    decreases |entries|
  {
    if entries != [] {
      var (k, v) := entries[0].value;
      assert forall i :: 1 <= i < |entries| ==> entries[1..][i - 1] == entries[i];
      StoreEntriesTyped(entries[1..], acc[k := v], intKeys);
    }
  }

  /** The value the LAST entry naming `key` gives it, if any. */
  function LastValue<V>(entries: seq<Result<(string, V)>>, key: string): Option<V> {
    if entries == [] then None
    else
      var later := LastValue(entries[1..], key);
      if later.Some? then later
      else if entries[0].Ok? && entries[0].value.0 == key then Some(entries[0].value.1)
      else None
  }

  /** The last item, when good, gives its key its final value. */
  lemma {:induction false} LastValueOfLast<V>(entries: seq<Result<(string, V)>>, key: string)
    requires entries != [] && entries[|entries| - 1].Ok? && entries[|entries| - 1].value.0 == key
    ensures LastValue(entries, key) == Some(entries[|entries| - 1].value.1)
    decreases |entries|
  {
    if |entries| > 1 {
      assert entries[1..][|entries| - 2] == entries[|entries| - 1];
      LastValueOfLast(entries[1..], key);
    }
  }

  /** After the loop each key holds the value of the last item naming it; a key no item
      names keeps its earlier value. */
  lemma {:induction false} StoreEntriesLookup<V>(entries: seq<Result<(string, V)>>, acc: map<string, V>,
                                                 key: string)
    requires StoreEntries(entries, acc).Ok?
    ensures var r := StoreEntries(entries, acc).value;
      match LastValue(entries, key)
      case Some(v) => key in r && r[key] == v
      case None => (key in r <==> key in acc) && (key in acc ==> r[key] == acc[key])
    decreases |entries|
  {
    if entries != [] {
      var (k, v) := entries[0].value;
      StoreEntriesLookup(entries[1..], acc[k := v], key);
    }
  }

  /** `parse_quest_block` / `parse_item_block` with the numeric keys of each. */
  function ParseBlock(lines: seq<string>, intKeys: set<string>): (r: Result<Record>)
    ensures r.Ok? <==> forall i :: 0 <= i < |lines| ==> ParseLine(lines[i], intKeys).Ok?
    ensures r.Err? ==> r.error.InvalidDataFormat?
                       && (r.error.issue.MalformedLine? || r.error.issue.NotInteger?)
    ensures r.Ok? ==> TypedRecord(r.value, intKeys)
  {
    var entries := ReadLines(lines, intKeys);
    var r := StoreEntries(entries, map[]);
    if r.Ok? then (StoreEntriesTyped(entries, map[], intKeys); r)
    else
      var i :| 0 <= i < |entries| && entries[i] == Err(r.error) && forall j :: 0 <= j < i ==> entries[j].Ok?;
      assert LineOutcome(entries[i], intKeys);
      r
  }

  /** `parse_quest_block`. */
  function ParseQuestBlock(lines: seq<string>): Result<Record> {
    ParseBlock(lines, QuestIntKeys)
  }

  /** `parse_item_block`. */
  function ParseItemBlock(lines: seq<string>): Result<Record> {
    ParseBlock(lines, ItemIntKeys)
  }

  /** In a parsed block each key holds the value of the last line naming it, and a key no
      line names is absent. */
  lemma ParseBlockLookup(lines: seq<string>, intKeys: set<string>, key: string)
    requires ParseBlock(lines, intKeys).Ok?
    ensures var r := ParseBlock(lines, intKeys).value;
      match LastValue(ReadLines(lines, intKeys), key)
      case Some(v) => key in r && r[key] == v
      case None => key !in r
  {
    StoreEntriesLookup(ReadLines(lines, intKeys), map[], key);
  }

  /** Of two readings naming the same key, the second is kept. */
  lemma LaterEntryWins<V>(first: Result<(string, V)>, second: Result<(string, V)>, acc: map<string, V>)
    requires first.Ok? && second.Ok? && first.value.0 == second.value.0
    ensures var r := StoreEntries([first, second], acc);
      r.Ok? && second.value.0 in r.value && r.value[second.value.0] == second.value.1
  {
    var entries := [first, second];
    LastValueOfLast(entries, second.value.0);
    StoreEntriesLookup(entries, acc, second.value.0);
  }

  // ---------------------------------------------------------------------------
  // Writing a line back
  // ---------------------------------------------------------------------------

  /** The text of a field as the data file holds it. */
  function FieldText(f: Field): string {
    match f
    case TextField(s) => s
    case IntField(n) => IntToString(n)
  }

  /** A line `key: value`. */
  function RenderLine(key: string, f: Field): string {
    key + ": " + FieldText(f)
  }

  predicate NoEdgeSpace(s: string) {
    s == [] || (!IsSpace(s[0]) && !IsSpace(s[|s| - 1]))
  }

  /** A key the grammar readings back unchanged: lower case, no ':', no surrounding spaces. */
  predicate PlainKey(key: string) {
    ':' !in key && NoEdgeSpace(key) && Lower(key) == key
  }

  /** `(a + ": " + b).split(": ", 1) == [a, b]` when `a` holds no ':'. */
  lemma SplitAtColonSpace(a: string, b: string)
    requires ':' !in a
    ensures Contains(a + ": " + b, ": ") && SplitOnce(a + ": " + b, ": ") == (a, b)
  {
    var s := a + ": " + b;
    assert s[|a|..|a| + 2] == ": ";
    assert OccursAt(s, ": ", |a|);
    var (p0, p1) := SplitOnce(s, ": ");
    assert s[|p0|] == ':' && s[|p0| + 1] == ' ';
    assert forall j :: 0 <= j < |a| ==> s[j] == a[j];
    assert s[|a| + 1] == ' ';
    assert |p0| == |a|;
    assert p0 == s[..|a|] == a;
    assert p1 == s[|a| + 2..] == b;
  }

  /** A written line is read back as the same key and value, provided the key is plain, a
      text value has no surrounding spaces, and the value is an integer exactly for the
      numeric keys. */
  lemma ParseRenderedLine(key: string, f: Field, intKeys: set<string>)
    requires PlainKey(key) && (f.TextField? ==> NoEdgeSpace(f.text))
    requires key in intKeys <==> f.IntField?
    ensures ParseLine(RenderLine(key, f), intKeys) == Ok((key, f))
  {
    var line := RenderLine(key, f);
    SplitAtColonSpace(key, FieldText(f));
    assert Contains(line, ": ") && SplitOnce(line, ": ") == (key, FieldText(f));
    StripUnchanged(key);
    StripUnchanged(FieldText(f));
    if f.IntField? {
      IntToStringRoundTrip(f.n);
    }
    assert ParseLine(line, intKeys) == Ok((key, f));
  }

  /** The key is normalised: a line whose key is written in any case and padded with
      whitespace reads back the same entry as the plain line. */
  lemma PaddedKeyLine(a: string, u: string, b: string, f: Field, intKeys: set<string>)
    requires IsBlank(a) && IsBlank(b) && u != [] && NoEdgeSpace(u) && ':' !in u
    requires f.TextField? ==> NoEdgeSpace(f.text)
    requires Lower(u) in intKeys <==> f.IntField?
    ensures ParseLine(a + u + b + ": " + FieldText(f), intKeys) == Ok((Lower(u), f))
  {
    var raw := a + u + b;
    assert ':' !in a && ':' !in b by {
      assert !IsSpace(':');
    }
    assert ':' !in raw;
    var line := raw + ": " + FieldText(f);
    SplitAtColonSpace(raw, FieldText(f));
    assert Contains(line, ": ") && SplitOnce(line, ": ") == (raw, FieldText(f));
    StripPadded(a, u, b);
    StripUnchanged(FieldText(f));
    if f.IntField? {
      IntToStringRoundTrip(f.n);
    }
    assert ParseLine(line, intKeys) == Ok((Lower(u), f));
  }

  /** For instance `  QUEST_ID : x` reads as `quest_id` = `x`. */
  lemma ShoutedPaddedKey()
    ensures ParseLine("  QUEST_ID : x", QuestIntKeys) == Ok(("quest_id", TextField("x")))
  {
    assert "  QUEST_ID : x" == "  " + "QUEST_ID" + " " + ": " + FieldText(TextField("x"));
    assert Lower("QUEST_ID") == "quest_id";
    PaddedKeyLine("  ", "QUEST_ID", " ", TextField("x"), QuestIntKeys);
  }

  /** Storing readings whose keys are all different keeps every one of them. */
  lemma {:induction false} StoreDistinctEntries<V>(keys: seq<string>, fields: seq<V>,
                                                   entries: seq<Result<(string, V)>>, acc: map<string, V>)
    requires |keys| == |fields| == |entries|
    requires forall i :: 0 <= i < |keys| ==> entries[i] == Ok((keys[i], fields[i]))
    requires forall i, j :: 0 <= i < j < |keys| ==> keys[i] != keys[j]
    ensures var r := StoreEntries(entries, acc);
      r.Ok? && (forall i :: 0 <= i < |keys| ==> keys[i] in r.value && r.value[keys[i]] == fields[i])
      && (forall k :: k !in keys ==> (k in r.value <==> k in acc) && (k in acc ==> r.value[k] == acc[k]))
    decreases |keys|
  {
    if keys != [] {
      assert forall i :: 1 <= i < |keys| ==> keys[1..][i - 1] == keys[i] && fields[1..][i - 1] == fields[i]
                                              && entries[1..][i - 1] == entries[i];
      StoreDistinctEntries(keys[1..], fields[1..], entries[1..], acc[keys[0] := fields[0]]);
    }
  }

  /** A block written one line per field, with plain keys, text values without surrounding
      spaces and integers exactly under the numeric keys, readings line by line as those fields. */
  lemma ReadRenderedLines(keys: seq<string>, fields: seq<Field>, intKeys: set<string>)
    requires |keys| == |fields|
    requires forall i :: 0 <= i < |keys| ==> PlainKey(keys[i])
    requires forall i :: 0 <= i < |keys| ==> (fields[i].TextField? ==> NoEdgeSpace(fields[i].text))
    requires forall i :: 0 <= i < |keys| ==> (keys[i] in intKeys <==> fields[i].IntField?)
    ensures var entries := ReadLines(seq(|keys|, i requires 0 <= i < |keys| => RenderLine(keys[i], fields[i])),
                                     intKeys);
      forall i :: 0 <= i < |keys| ==> entries[i] == Ok((keys[i], fields[i]))
  {
    var lines := seq(|keys|, i requires 0 <= i < |keys| => RenderLine(keys[i], fields[i]));
    forall i | 0 <= i < |keys|
      ensures ParseLine(lines[i], intKeys) == Ok((keys[i], fields[i]))
    {
      ParseRenderedLine(keys[i], fields[i], intKeys);
    }
  }

  /** Storing good readings with all-different keys gives a map holding exactly them. */
  lemma StoreExactly<V>(keys: seq<string>, values: seq<V>, entries: seq<Result<(string, V)>>)
    requires |keys| == |values| == |entries|
    requires forall i :: 0 <= i < |keys| ==> entries[i] == Ok((keys[i], values[i]))
    requires forall i, j :: 0 <= i < j < |keys| ==> keys[i] != keys[j]
    ensures var r := StoreEntries(entries, map[]);
      r.Ok? && r.value.Keys == (set i | 0 <= i < |keys| :: keys[i])
      && forall i :: 0 <= i < |keys| ==> r.value[keys[i]] == values[i]
  {
    StoreDistinctEntries(keys, values, entries, map[]);
    var r := StoreEntries(entries, map[]).value;
    forall k | k in r
      ensures k in set i | 0 <= i < |keys| :: keys[i]
    {
      var i :| 0 <= i < |keys| && keys[i] == k;
    }
  }

  /** With the keys also all different, the block parses back to exactly those fields. */
  lemma ParseRenderedBlock(keys: seq<string>, fields: seq<Field>, intKeys: set<string>)
    requires |keys| == |fields|
    requires forall i :: 0 <= i < |keys| ==> PlainKey(keys[i])
    requires forall i :: 0 <= i < |keys| ==> (fields[i].TextField? ==> NoEdgeSpace(fields[i].text))
    requires forall i :: 0 <= i < |keys| ==> (keys[i] in intKeys <==> fields[i].IntField?)
    requires forall i, j :: 0 <= i < j < |keys| ==> keys[i] != keys[j]
    ensures var r := ParseBlock(seq(|keys|, i requires 0 <= i < |keys| => RenderLine(keys[i], fields[i])),
                                intKeys);
      r.Ok? && r.value.Keys == (set i | 0 <= i < |keys| :: keys[i])
      && forall i :: 0 <= i < |keys| ==> r.value[keys[i]] == fields[i]
  {
    var lines := seq(|keys|, i requires 0 <= i < |keys| => RenderLine(keys[i], fields[i]));
    ReadRenderedLines(keys, fields, intKeys);
    StoreExactly(keys, fields, ReadLines(lines, intKeys));
  }

  // ---------------------------------------------------------------------------
  // Validation
  // ---------------------------------------------------------------------------

  /** `validate_quest_data`'s required fields, in its order. */
  const QuestFields: seq<string> :=
    ["quest_id", "title", "description", "reward_xp", "reward_gold", "required_level", "prerequisite"]

  /** `validate_item_data`'s required fields, in its order. */
  const ItemFields: seq<string> := ["item_id", "name", "type", "effect", "cost", "description"]

  /** Every field of the list is present. */
  predicate HasFields(fields: seq<string>, r: Record) {
    forall f :: f in fields ==> f in r
  }

  /** Whether `int(value)` succeeds. */
  predicate IntConvertible(f: Field) {
    match f
    case IntField(_) => true
    case TextField(s) => ParseInt(Strip(s)).Some?
  }

  /** The three numeric quest fields are present and convert. */
  predicate QuestNumbersConvert(r: Record) {
    forall k :: k in QuestIntKeys ==> k in r && IntConvertible(r[k])
  }

  /** `validate_quest_data`: the first missing field, then the three numeric fields. */
  function ValidateQuestData(r: Record): (v: Result<bool>)
    ensures v.Ok? <==> HasFields(QuestFields, r) && QuestNumbersConvert(r)
    ensures v.Ok? ==> v.value
    ensures v.Err? ==> v.error.InvalidDataFormat? && !v.error.issue.EmptyContent?
    ensures !HasFields(QuestFields, r) ==> v == Err(InvalidDataFormat(MissingField(FirstMissing(QuestFields, r).value)))
  {
    match FirstMissing(QuestFields, r)
    case Some(f) => Err(InvalidDataFormat(MissingField(f)))
    case None =>
      assert "reward_xp" in QuestFields && "reward_gold" in QuestFields && "required_level" in QuestFields;
      if IntConvertible(r["reward_xp"]) && IntConvertible(r["reward_gold"])
         && IntConvertible(r["required_level"]) then Ok(true)
      else Err(InvalidDataFormat(NotInteger("reward_xp, reward_gold, required_level")))
  }

  predicate IsItemType(f: Field) {
    f == TextField("weapon") || f == TextField("armor") || f == TextField("consumable")
  }

  /** `validate_item_data`: the first missing field, then the item type, then the cost. */
  function ValidateItemData(r: Record): (v: Result<bool>)
    ensures v.Ok? <==> HasFields(ItemFields, r) && "type" in r && IsItemType(r["type"])
                       && "cost" in r && IntConvertible(r["cost"])
    ensures v.Ok? ==> v.value
    ensures v.Err? ==> v.error.InvalidDataFormat? && !v.error.issue.EmptyContent?
    ensures !HasFields(ItemFields, r) ==> v == Err(InvalidDataFormat(MissingField(FirstMissing(ItemFields, r).value)))
    ensures HasFields(ItemFields, r) && "type" in r && !IsItemType(r["type"]) ==>
      v == Err(InvalidDataFormat(UnknownItemType))
  {
    match FirstMissing(ItemFields, r)
    case Some(f) => Err(InvalidDataFormat(MissingField(f)))
    case None =>
      assert "type" in ItemFields && "cost" in ItemFields;
      if !IsItemType(r["type"]) then Err(InvalidDataFormat(UnknownItemType))
      else if !IntConvertible(r["cost"]) then Err(InvalidDataFormat(NotInteger("cost")))
      else Ok(true)
  }

  /** After `parse_quest_block` the numeric check of `validate_quest_data` cannot fail: a
      parsed quest with every field present is valid. */
  lemma ParsedQuestIsValid(lines: seq<string>)
    requires ParseQuestBlock(lines).Ok? && HasFields(QuestFields, ParseQuestBlock(lines).value)
    ensures ValidateQuestData(ParseQuestBlock(lines).value) == Ok(true)
  {
    var r := ParseQuestBlock(lines).value;
    assert "reward_xp" in QuestFields && "reward_gold" in QuestFields && "required_level" in QuestFields;
    assert TypedEntry(("reward_xp", r["reward_xp"]), QuestIntKeys);
    assert TypedEntry(("reward_gold", r["reward_gold"]), QuestIntKeys);
    assert TypedEntry(("required_level", r["required_level"]), QuestIntKeys);
  }

  /** Likewise the cost check of `validate_item_data` cannot fail after `parse_item_block`:
      a parsed item with every field and a known type is valid. */
  lemma ParsedItemIsValid(lines: seq<string>)
    requires ParseItemBlock(lines).Ok? && HasFields(ItemFields, ParseItemBlock(lines).value)
    requires "type" in ParseItemBlock(lines).value && IsItemType(ParseItemBlock(lines).value["type"])
    ensures ValidateItemData(ParseItemBlock(lines).value) == Ok(true)
  {
    var r := ParseItemBlock(lines).value;
    assert "cost" in ItemFields;
    assert TypedEntry(("cost", r["cost"]), ItemIntKeys);
  }

  // ---------------------------------------------------------------------------
  // File content
  // ---------------------------------------------------------------------------

  /** The pieces that are not blank, in order (`[p for p in pieces if p.strip()]`). */
  function NonBlank(pieces: seq<string>): (r: seq<string>)
    ensures forall p :: p in r <==> p in pieces && !IsBlank(p)
    ensures |r| <= |pieces|
  {
    if pieces == [] then []
    else (if IsBlank(pieces[0]) then [] else [pieces[0]]) + NonBlank(pieces[1..])
  }

  /** Filtering keeps the order: a piece added at the end comes out at the end. */
  lemma {:induction false} NonBlankAppend(pieces: seq<string>, p: string)
    ensures NonBlank(pieces + [p]) == NonBlank(pieces) + (if IsBlank(p) then [] else [p])
  {
    if pieces != [] {
      assert (pieces + [p])[1..] == pieces[1..] + [p];
      NonBlankAppend(pieces[1..], p);
    }
  }

  /** The lines of every block: the content split on "\n\n" and each block on "\n", blank
      blocks and blank lines dropped. */
  function ContentBlocks(content: string): (blocks: seq<seq<string>>)
    ensures forall b :: b in blocks ==> forall line :: line in b ==> !IsBlank(line)
    ensures var pieces := NonBlank(Split(content, "\n\n"));
      |blocks| == |pieces|
      && (forall i :: 0 <= i < |blocks| ==> blocks[i] != [])
      && (forall i, line :: 0 <= i < |blocks| ==>
            (line in blocks[i] <==> line in Split(pieces[i], "\n") && !IsBlank(line)))
      && (forall i :: 0 <= i < |blocks| ==> blocks[i] == NonBlank(Split(pieces[i], "\n")))
  {
    var pieces := NonBlank(Split(content, "\n\n"));
    NonBlankPiecesHaveLines(pieces);
    seq(|pieces|, i requires 0 <= i < |pieces| => NonBlank(Split(pieces[i], "\n")))
  }

  /** A piece that is not blank has a line that is not blank. */
  lemma NonBlankPieceHasLine(p: string)
    requires !IsBlank(p)
    ensures NonBlank(Split(p, "\n")) != []
  {
    var lines := Split(p, "\n");
    JoinSplit(p, "\n");
    if NonBlank(lines) == [] {
      assert forall k :: 0 <= k < |lines| ==> IsBlank(lines[k]) by {
        forall k | 0 <= k < |lines|
          ensures IsBlank(lines[k])
        {
          assert lines[k] in lines;
        }
      }
      assert IsSpace('\n');
      JoinBlank(lines, "\n");
      assert false;
    }
  }

  lemma NonBlankPiecesHaveLines(pieces: seq<string>)
    requires forall p :: p in pieces ==> !IsBlank(p)
    ensures forall i :: 0 <= i < |pieces| ==> NonBlank(Split(pieces[i], "\n")) != []
  {
    forall i | 0 <= i < |pieces|
      ensures NonBlank(Split(pieces[i], "\n")) != []
    {
      assert pieces[i] in pieces;
      NonBlankPieceHasLine(pieces[i]);
    }
  }

  /** No text is lost by the splitting: the content is the blocks joined by "\n\n", each
      block its lines joined by "\n", and a line that is not blank survives the filter. */
  lemma ContentSplitLosesNothing(content: string)
    ensures Join(Split(content, "\n\n"), "\n\n") == content
    ensures forall p :: p in Split(content, "\n\n") ==> Join(Split(p, "\n"), "\n") == p
    ensures forall p, line :: (p in Split(content, "\n\n") && line in Split(p, "\n") && !IsBlank(line))
              ==> line in NonBlank(Split(p, "\n"))
  {
    JoinSplit(content, "\n\n");
    forall p | p in Split(content, "\n\n")
      ensures Join(Split(p, "\n"), "\n") == p
    {
      JoinSplit(p, "\n");
    }
  }

  /** Which file a block comes from. */
  datatype Kind = QuestFile | ItemFile

  function IntKeys(kind: Kind): set<string> {
    match kind
    case QuestFile => QuestIntKeys
    case ItemFile => ItemIntKeys
  }

  function IdKey(kind: Kind): string {
    match kind
    case QuestFile => "quest_id"
    case ItemFile => "item_id"
  }

  function Validate(kind: Kind, r: Record): (v: Result<bool>)
    ensures v.Ok? ==> IdKey(kind) in r
    ensures v.Err? ==> v.error.InvalidDataFormat? && !v.error.issue.EmptyContent?
  {
    match kind
    case QuestFile =>
      assert "quest_id" in QuestFields;
      ValidateQuestData(r)
    case ItemFile =>
      assert "item_id" in ItemFields;
      ValidateItemData(r)
  }

  /** A parsed block checked by the validator of its file, with its id (the text of the id
      field). */
  function CheckRecord(kind: Kind, rec: Record): (r: Result<(string, Record)>)
    requires TypedRecord(rec, IntKeys(kind))
    ensures r.Ok? <==> Validate(kind, rec).Ok?
    ensures r.Ok? ==> r.value.1 == rec && IdKey(kind) in rec && rec[IdKey(kind)] == TextField(r.value.0)
    ensures r.Err? ==> r.error == Validate(kind, rec).error
  {
    match Validate(kind, rec)
    case Err(e) => Err(e)
    case Ok(_) =>
      assert TypedEntry((IdKey(kind), rec[IdKey(kind)]), IntKeys(kind));
      Ok((rec[IdKey(kind)].text, rec))
  }

  /** What reading one block can give: a valid record with its id, or a format error that
      is not about empty content. */
  predicate BlockOutcome(kind: Kind, e: Result<(string, Record)>) {
    match e
    case Ok((id, rec)) => Validate(kind, rec).Ok? && IdKey(kind) in rec && rec[IdKey(kind)] == TextField(id)
    case Err(error) => error.InvalidDataFormat? && !error.issue.EmptyContent?
  }

  /** A block that parses and validates, with its id. */
  function ReadBlock(kind: Kind, lines: seq<string>): (r: Result<(string, Record)>)
    ensures BlockOutcome(kind, r)
    ensures r.Ok? <==> ParseBlock(lines, IntKeys(kind)).Ok?
                       && Validate(kind, ParseBlock(lines, IntKeys(kind)).value).Ok?
  {
    var parsed := ParseBlock(lines, IntKeys(kind));
    if parsed.Err? then Err(parsed.error) else CheckRecord(kind, parsed.value)
  }

  /** The result of reading each block of a file on its own. */
  function ReadBlocks(kind: Kind, blocks: seq<seq<string>>): (readings: seq<Result<(string, Record)>>)
    ensures |readings| == |blocks|
    ensures forall i :: 0 <= i < |blocks| ==> readings[i] == ReadBlock(kind, blocks[i])
    ensures forall i :: 0 <= i < |blocks| ==> BlockOutcome(kind, readings[i])
  {
    seq(|blocks|, i requires 0 <= i < |blocks| => ReadBlock(kind, blocks[i]))
  }

  /** Every record is valid and stored under its own id. */
  predicate KeyedById(kind: Kind, m: map<string, Record>) {
    forall id :: id in m ==> Validate(kind, m[id]).Ok? && IdKey(kind) in m[id] && m[id][IdKey(kind)] == TextField(id)
  }

  lemma {:induction false} StoreKeyedById(kind: Kind, readings: seq<Result<(string, Record)>>,
                                          acc: map<string, Record>)
    requires StoreEntries(readings, acc).Ok? && KeyedById(kind, acc)
    requires forall i :: 0 <= i < |readings| ==> BlockOutcome(kind, readings[i])
    ensures KeyedById(kind, StoreEntries(readings, acc).value)
    decreases |readings|
  {
    if readings != [] {
      var (id, rec) := readings[0].value;
      assert BlockOutcome(kind, readings[0]);
      assert forall i :: 1 <= i < |readings| ==> readings[1..][i - 1] == readings[i];
      StoreKeyedById(kind, readings[1..], acc[id := rec]);
    }
  }

  /** The content part of `load_quests` / `load_items`: stripped content that is empty is
      refused; otherwise every block is read in order and stored under its id, the first bad
      block stopping the load with its error. */
  function LoadRecords(kind: Kind, content: string): (r: Result<map<string, Record>>)
    ensures r.Err? ==> r.error.InvalidDataFormat?
    ensures r == Err(InvalidDataFormat(EmptyContent)) <==> IsBlank(content)
    ensures !IsBlank(content) ==>
      (r.Ok? <==> forall b :: b in ContentBlocks(Strip(content)) ==> ReadBlock(kind, b).Ok?)
    ensures r.Ok? ==> KeyedById(kind, r.value)
  {
    var stripped := Strip(content);
    if stripped == [] then Err(InvalidDataFormat(EmptyContent))
    else
      var blocks := ContentBlocks(stripped);
      var readings := ReadBlocks(kind, blocks);
      var r := StoreEntries(readings, map[]);
      assert (forall i :: 0 <= i < |readings| ==> readings[i].Ok?) <==>
             (forall b :: b in blocks ==> ReadBlock(kind, b).Ok?);
      if r.Ok? then (StoreKeyedById(kind, readings, map[]); r)
      else
        var i :| 0 <= i < |readings| && readings[i] == Err(r.error) && forall j :: 0 <= j < i ==> readings[j].Ok?;
        assert BlockOutcome(kind, readings[i]);
        r
  }

  /** Each id of a loaded file holds the record of the last block with that id, and an id
      no block has is absent. */
  lemma LoadRecordsLookup(kind: Kind, content: string, id: string)
    requires LoadRecords(kind, content).Ok?
    ensures !IsBlank(content)
    ensures var r := LoadRecords(kind, content).value;
      match LastValue(ReadBlocks(kind, ContentBlocks(Strip(content))), id)
      case Some(rec) => id in r && r[id] == rec
      case None => id !in r
  {
    StoreEntriesLookup(ReadBlocks(kind, ContentBlocks(Strip(content))), map[], id);
  }
}
