/**
 How a configuration change is classified: by the paths at which two configurations differ, collapsed
 to the sections that may be reloaded hot.
 */
module ConfigPolicy {
  import opened Text

  // JSON values up to Python's equality, by which a bool is the number it equals.
  datatype Json =
    | Null
    | Number(n: real)
    | Str(text: string)
    | List(items: seq<Json>)
    | Obj(fields: map<string, Json>)

  /** `config.get(key)`. */
  function Get(o: Json, key: string): Json
    requires o.Obj?
  {
    if key in o.fields then o.fields[key] else Null
  }

  // Where two configurations differ

  /** Following the keys of `path` through objects on both sides leads to two different values. */
  ghost predicate DiffersAt(a: Json, b: Json, path: seq<string>)
    decreases |path|
  {
    if a.Obj? && b.Obj? then path != [] && DiffersAt(Get(a, path[0]), Get(b, path[0]), path[1..])
    else path == [] && a != b
  }

  /** Agreement up to keys that are null on one side and absent on the other. */
  ghost predicate Agree(a: Json, b: Json) {
    if a.Obj? && b.Obj? then
      && (forall k | k in a.fields && k in b.fields :: Agree(a.fields[k], b.fields[k]))
      && (forall k | k in a.fields && k !in b.fields :: a.fields[k] == Null)
      && (forall k | k in b.fields && k !in a.fields :: b.fields[k] == Null)
    else a == b
  }

  lemma {:induction false} DiffersBothWays(a: Json, b: Json, path: seq<string>)
    ensures DiffersAt(a, b, path) <==> DiffersAt(b, a, path)
    decreases |path|
  {
    if a.Obj? && b.Obj? && path != [] {
      DiffersBothWays(Get(a, path[0]), Get(b, path[0]), path[1..]);
    }
  }

  lemma {:induction false} AgreeingNeverDiffer(a: Json, b: Json, path: seq<string>)
    requires Agree(a, b)
    ensures !DiffersAt(a, b, path)
    decreases |path|
  {
    if a.Obj? && b.Obj? && path != [] {
      AgreeingNeverDiffer(Get(a, path[0]), Get(b, path[0]), path[1..]);
    }
  }

  lemma {:induction false} FindDifference(a: Json, b: Json) returns (path: seq<string>)
    requires !Agree(a, b)
    ensures DiffersAt(a, b, path)
    decreases a
  {
    if a.Obj? && b.Obj? {
      if k :| k in a.fields && k in b.fields && !Agree(a.fields[k], b.fields[k]) {
        var rest := FindDifference(a.fields[k], b.fields[k]);
        path := [k] + rest;
        assert path[1..] == rest;
      } else if k :| k in a.fields && k !in b.fields && a.fields[k] != Null {
        path := [k];
      } else {
        var k :| k in b.fields && k !in a.fields && b.fields[k] != Null;
        path := [k];
      }
    } else {
      path := [];
    }
  }

  ghost predicate Differ(a: Json, b: Json) {
    exists path :: DiffersAt(a, b, path)
  }

  /** Two configurations agree exactly when there is nowhere they differ. */
  lemma AgreeMeansNoDifference(a: Json, b: Json)
    ensures Agree(a, b) <==> !Differ(a, b)
  {
    if Agree(a, b) {
      forall path ensures !DiffersAt(a, b, path) {
        AgreeingNeverDiffer(a, b, path);
      }
    } else {
      var path := FindDifference(a, b);
    }
  }

  // Paths as text

  function Extended(prefix: string, key: string): string {
    if prefix == "" then key else prefix + "." + key
  }

  /** The text of a path below `prefix`. */
  function PathText(prefix: string, path: seq<string>): string
    decreases |path|
  {
    if path == [] then prefix else PathText(Extended(prefix, path[0]), path[1..])
  }

  ghost predicate DiffTextAt(a: Json, b: Json, prefix: string, text: string) {
    exists path :: DiffersAt(a, b, path) && PathText(prefix, path) == text
  }

  /** `changed` holds the texts of the paths at which the two differ, no more and no fewer. */
  ghost predicate IsDiff(changed: set<string>, a: Json, b: Json, prefix: string) {
    forall text :: text in changed <==> DiffTextAt(a, b, prefix, text)
  }

  ghost predicate DiffTextUnder(a: Json, b: Json, prefix: string, key: string, text: string)
    requires a.Obj? && b.Obj?
  {
    DiffTextAt(Get(a, key), Get(b, key), Extended(prefix, key), text)
  }

  lemma DiffTextByKey(a: Json, b: Json, prefix: string, text: string)
    requires a.Obj? && b.Obj?
    ensures DiffTextAt(a, b, prefix, text) <==>
            exists key :: key in a.fields.Keys + b.fields.Keys && DiffTextUnder(a, b, prefix, key, text)
  {
    if DiffTextAt(a, b, prefix, text) {
      var path :| DiffersAt(a, b, path) && PathText(prefix, path) == text;
      var key := path[0];
      assert DiffersAt(Get(a, key), Get(b, key), path[1..]);
      assert DiffTextUnder(a, b, prefix, key, text);
    }
    if key :| key in a.fields.Keys + b.fields.Keys && DiffTextUnder(a, b, prefix, key, text) {
      var rest :| DiffersAt(Get(a, key), Get(b, key), rest) && PathText(Extended(prefix, key), rest) == text;
      var path := [key] + rest;
      assert path[0] == key && path[1..] == rest;
      assert DiffersAt(a, b, path) && PathText(prefix, path) == text;
    }
  }

  lemma DiffTextOfLeaves(a: Json, b: Json, prefix: string, text: string)
    requires !(a.Obj? && b.Obj?)
    ensures DiffTextAt(a, b, prefix, text) <==> a != b && text == prefix
  {
    if a != b && text == prefix {
      assert DiffersAt(a, b, []) && PathText(prefix, []) == text;
    }
  }

  /** Lists are compared item by item, and so are they by plain inequality. */
  predicate SequenceChanged(a: Json, b: Json) {
    a.List? && b.List? && a.items != b.items
  }

  method DiffPaths(a: Json, b: Json, prefix: string) returns (changed: set<string>)
    requires a.Obj? && b.Obj?
    ensures IsDiff(changed, a, b, prefix)
    decreases a
  {
    changed := {};
    var left := a.fields.Keys + b.fields.Keys;
    while left != {}
      invariant left <= a.fields.Keys + b.fields.Keys
      invariant forall text :: text in changed <==>
          exists key :: key in a.fields.Keys + b.fields.Keys - left && DiffTextUnder(a, b, prefix, key, text)
      decreases |left|
    {
      var key :| key in left;
      var under := DiffKey(a, b, prefix, key);
      changed, left := changed + under, left - {key};
    }
    forall text ensures text in changed <==> DiffTextAt(a, b, prefix, text) {
      DiffTextByKey(a, b, prefix, text);
    }
  }

  /** The loop body: the differences under one key. */
  method DiffKey(a: Json, b: Json, prefix: string, key: string) returns (changed: set<string>)
    requires a.Obj? && b.Obj? && key in a.fields.Keys + b.fields.Keys
    ensures forall text :: text in changed <==> DiffTextUnder(a, b, prefix, key, text)
    decreases a, 0
  {
    var path := Extended(prefix, key);
    var previous, current := Get(a, key), Get(b, key);
    if previous.Obj? && current.Obj? {
      changed := DiffPaths(previous, current, path);
      return;
    }
    forall text ensures DiffTextUnder(a, b, prefix, key, text) <==> previous != current && text == path {
      DiffTextOfLeaves(previous, current, path, text);
    }
    if SequenceChanged(previous, current) {
      return {path};
    }
    changed := if previous != current then {path} else {};
  }

  // Sections

  const RISK_CONFIG := ["arbitrage_runtime", "risk_config"]
  const OPEN_ORDER_CAP := ["arbitrage_runtime", "runtime_state", "open_order_cap"]
  const REMAINING_BOT_NOTIONAL := ["arbitrage_runtime", "runtime_state", "remaining_bot_notional"]

  // The hot-reloadable sections, in the order they are tried.
  const HOT_SECTIONS: seq<seq<string>> := [RISK_CONFIG, OPEN_ORDER_CAP, REMAINING_BOT_NOTIONAL]

  function SectionText(section: seq<string>): string {
    PathText("", section)
  }

  predicate TextUnder(text: string, section: string) {
    text == section || section + "." <= text
  }

  function FirstHotSection(text: string, sections: seq<seq<string>>): (found: Option<seq<string>>)
    ensures found.Some? ==> found.value in sections && TextUnder(text, SectionText(found.value))
    ensures found.None? ==> forall s :: s in sections ==> !TextUnder(text, SectionText(s))
  {
    if sections == [] then None
    else if TextUnder(text, SectionText(sections[0])) then Some(sections[0])
    else FirstHotSection(text, sections[1..])
  }

  function Collapsed(text: string): string {
    match FirstHotSection(text, HOT_SECTIONS)
    case Some(section) => SectionText(section)
    case None => text
  }

  function Sections(diff: set<string>): set<string> {
    set text | text in diff :: Collapsed(text)
  }

  method CollapseSectionPaths(changed: set<string>) returns (collapsed: set<string>)
    ensures collapsed == Sections(changed)
  {
    collapsed := {};
    var left := changed;
    while left != {}
      invariant left <= changed && collapsed == Sections(changed - left)
      decreases |left|
    {
      var text :| text in left;
      collapsed, left := collapsed + {Collapsed(text)}, left - {text};
    }
    assert changed - left == changed;
  }

  // Keys without dots

  predicate PlainKey(key: string) {
    key != "" && '.' !in key
  }

  ghost predicate PlainKeys(a: Json) {
    a.Obj? ==> forall k | k in a.fields :: PlainKey(k) && PlainKeys(a.fields[k])
  }

  ghost predicate PlainPath(path: seq<string>) {
    forall i | 0 <= i < |path| :: PlainKey(path[i])
  }

  lemma {:induction false} DifferencesArePlain(a: Json, b: Json, path: seq<string>)
    requires PlainKeys(a) && PlainKeys(b) && DiffersAt(a, b, path)
    ensures PlainPath(path)
    decreases |path|
  {
    if path != [] {
      DifferencesArePlain(Get(a, path[0]), Get(b, path[0]), path[1..]);
      assert path[0] in a.fields || path[0] in b.fields;
    }
  }

  lemma SplitExtended(prefix: string, key: string)
    requires prefix != "" && PlainKey(key)
    ensures Split(Extended(prefix, key), '.') == Split(prefix, '.') + [key]
    ensures prefix + "." <= Extended(prefix, key)
  {
    SplitAt(prefix, '.', key);
    SplitPlain(key, '.');
    assert prefix + "." + key == (prefix + ".") + key;
  }

  lemma StartsTransitively(a: string, b: string, c: string)
    requires a + "." <= b && b + "." <= c
    ensures a + "." <= c
  {}

  lemma {:induction false} SplitBelow(prefix: string, path: seq<string>)
    requires prefix != "" && PlainPath(path)
    ensures Split(PathText(prefix, path), '.') == Split(prefix, '.') + path
    decreases |path|
  {
    if path != [] {
      SplitExtended(prefix, path[0]);
      SplitBelow(Extended(prefix, path[0]), path[1..]);
      Rejoined(Split(prefix, '.'), path);
    }
  }

  lemma Rejoined(parts: seq<string>, path: seq<string>)
    requires path != []
    ensures (parts + [path[0]]) + path[1..] == parts + path
    ensures [path[0]] + path[1..] == path
  {}

  lemma {:induction false} StartsBelow(prefix: string, path: seq<string>)
    requires prefix != "" && path != []
    ensures prefix + "." <= PathText(prefix, path)
    decreases |path|
  {
    var next := Extended(prefix, path[0]);
    assert next == (prefix + ".") + path[0];
    if path[1..] != [] {
      StartsBelow(next, path[1..]);
      StartsTransitively(prefix, next, PathText(prefix, path));
    }
  }

  /** Splitting the text of a path at the dots gives the path back. */
  lemma SplitPathText(path: seq<string>)
    requires path != [] && PlainPath(path)
    ensures Split(PathText("", path), '.') == path
  {
    SplitBelow(path[0], path[1..]);
    SplitPlain(path[0], '.');
    Rejoined([], path);
  }

  lemma {:induction false} PathTextJoins(prefix: string, first: seq<string>, second: seq<string>)
    ensures PathText(prefix, first + second) == PathText(PathText(prefix, first), second)
    decreases |first|
  {
    if first == [] {
      assert first + second == second;
    } else {
      assert (first + second)[0] == first[0] && (first + second)[1..] == first[1..] + second;
      PathTextJoins(Extended(prefix, first[0]), first[1..], second);
    }
  }

  /** Lying under a section in keys is lying under it in text, whatever the keys below it are. */
  lemma UnderInKeysIsUnderInText(path: seq<string>, section: seq<string>)
    requires section != [] && section[0] != "" && section <= path
    ensures TextUnder(PathText("", path), SectionText(section))
  {
    var rest := path[|section|..];
    assert path == section + rest;
    PathTextJoins("", section, rest);
    PathTextJoins("", section[..1], section[1..]);
    assert section == section[..1] + section[1..] && PathText("", section[..1]) == section[0];
    if section[1..] != [] {
      StartsBelow(section[0], section[1..]);
    }
    if rest != [] {
      StartsBelow(SectionText(section), rest);
    }
  }

  lemma UnderInTextSplits(path: seq<string>, section: seq<string>, text: string, start: string)
    requires Split(text, '.') == path && Split(start, '.') == section && start + "." <= text
    ensures section <= path
  {
    var rest := text[|start| + 1..];
    assert text == start + "." + rest;
    SplitAt(start, '.', rest);
  }

  /** For plain keys, lying under a section in text is lying under it in keys. */
  lemma UnderInTextIsUnderInKeys(path: seq<string>, section: seq<string>)
    requires path != [] && PlainPath(path) && section != [] && PlainPath(section)
    ensures TextUnder(PathText("", path), SectionText(section)) <==> section <= path
  {
    var text, start := PathText("", path), SectionText(section);
    if section <= path {
      UnderInKeysIsUnderInText(path, section);
    } else if TextUnder(text, start) {
      SplitPathText(path);
      SplitPathText(section);
      if text != start {
        UnderInTextSplits(path, section, text, start);
      }
    }
  }

  // The classification

  datatype ApplyPolicy = Noop | HotReload | RestartRequired

  // The lists of the summary, as sets: they are sorted, so their order says nothing.
  datatype Summary = Summary(policy: ApplyPolicy, changed: set<string>, hot: set<string>, restart: set<string>)

  const INITIAL_ASSIGNMENT := "initial_assignment"
  const NO_EFFECTIVE_CHANGE := "no_effective_change"

  function HotTexts(): set<string> {
    set section | section in HOT_SECTIONS :: SectionText(section)
  }

  // The three sections that may be reloaded, as paths

  lemma RiskConfigText()
    ensures SectionText(RISK_CONFIG) == "arbitrage_runtime.risk_config"
  {
    TextOfTwo(RISK_CONFIG[0], RISK_CONFIG[1]);
  }

  lemma OpenOrderCapText()
    ensures SectionText(OPEN_ORDER_CAP) == "arbitrage_runtime.runtime_state.open_order_cap"
  {
    TextOfThree(OPEN_ORDER_CAP[0], OPEN_ORDER_CAP[1], OPEN_ORDER_CAP[2]);
    assert "arbitrage_runtime" + "." + "runtime_state" == "arbitrage_runtime.runtime_state";
    assert "arbitrage_runtime.runtime_state" + "." + "open_order_cap"
        == "arbitrage_runtime.runtime_state.open_order_cap";
  }

  lemma RemainingBotNotionalText()
    ensures SectionText(REMAINING_BOT_NOTIONAL) == "arbitrage_runtime.runtime_state.remaining_bot_notional"
  {
    TextOfThree(REMAINING_BOT_NOTIONAL[0], REMAINING_BOT_NOTIONAL[1], REMAINING_BOT_NOTIONAL[2]);
    assert "arbitrage_runtime" + "." + "runtime_state" == "arbitrage_runtime.runtime_state";
    assert "arbitrage_runtime.runtime_state" + "." + "remaining_bot_notional"
        == "arbitrage_runtime.runtime_state.remaining_bot_notional";
  }

  lemma HotTextsAreThree(text: string)
    ensures text in HotTexts() <==>
            text == SectionText(RISK_CONFIG) || text == SectionText(OPEN_ORDER_CAP)
            || text == SectionText(REMAINING_BOT_NOTIONAL)
  {
    assert RISK_CONFIG in HOT_SECTIONS && OPEN_ORDER_CAP in HOT_SECTIONS && REMAINING_BOT_NOTIONAL in HOT_SECTIONS;
  }

  lemma TextOfTwo(a: string, b: string)
    requires a != ""
    ensures PathText("", [a, b]) == a + "." + b
  {
    PathTextJoins("", [a], [b]);
    assert [a] + [b] == [a, b] && [a][1..] == [] && [b][1..] == [];
  }

  lemma TextOfThree(a: string, b: string, c: string)
    requires a != ""
    ensures PathText("", [a, b, c]) == a + "." + b + "." + c
  {
    TextOfTwo(a, b);
    PathTextJoins("", [a, b], [c]);
    assert [a, b] + [c] == [a, b, c] && [c][1..] == [];
  }

  function SummaryOf(changed: set<string>): Summary {
    if changed == {NO_EFFECTIVE_CHANGE} then Summary(Noop, changed, {}, {})
    else
      var hot := changed * HotTexts();
      Summary(if changed - hot != {} then RestartRequired else HotReload, changed, hot, changed - hot)
  }

  function Classified(diff: set<string>): Summary {
    SummaryOf(if diff == {} then {NO_EFFECTIVE_CHANGE} else Sections(diff))
  }

  /** `diff`: the changed paths the summary was made from. */
  method SummarizeConfigAssignmentPolicy(previous: Option<Json>, next: Json)
    returns (s: Summary, ghost diff: set<string>)
    requires next.Obj? && (previous.Some? ==> previous.value.Obj?)
    ensures previous.None? ==> s == Summary(RestartRequired, {INITIAL_ASSIGNMENT}, {}, {INITIAL_ASSIGNMENT})
    ensures previous.Some? ==> IsDiff(diff, previous.value, next, "") && s == Classified(diff)
  {
    diff := {};
    if previous.None? {
      InitialSummary();
      return SummaryOf({INITIAL_ASSIGNMENT}), diff;
    }
    var paths := DiffPaths(previous.value, next, "");
    diff := paths;
    var changed := CollapseSectionPaths(paths);
    SectionsEmpty(diff);
    if changed == {} {
      changed := {NO_EFFECTIVE_CHANGE};
    }
    s := SummaryOf(changed);
  }

  lemma SectionsEmpty(diff: set<string>)
    ensures Sections(diff) == {} <==> diff == {}
  {
    if text :| text in diff {
      assert Collapsed(text) in Sections(diff);
    }
  }

  /** Every hot section lies below "arbitrage_runtime", so none is one of the two markers. */
  lemma SectionsAreNested()
    ensures forall section :: section in HOT_SECTIONS ==> section != [] && PlainPath(section)
    ensures forall text :: text in HotTexts() ==> text != "" && text[0] == 'a'
  {
    forall section | section in HOT_SECTIONS
      ensures section != [] && PlainPath(section) && SectionText(section) != "" && SectionText(section)[0] == 'a'
    {
      assert PlainPath(RISK_CONFIG) && PlainPath(OPEN_ORDER_CAP) && PlainPath(REMAINING_BOT_NOTIONAL);
      var head, rest := section[..1], section[1..];
      assert section == head + rest && section[0] == "arbitrage_runtime";
      PathTextJoins("", head, rest);
      assert PathText("", head) == section[0];
      StartsBelow(section[0], rest);
    }
  }

  lemma InitialSummary()
    ensures SummaryOf({INITIAL_ASSIGNMENT}) == Summary(RestartRequired, {INITIAL_ASSIGNMENT}, {}, {INITIAL_ASSIGNMENT})
  {
    SectionsAreNested();
    assert INITIAL_ASSIGNMENT[0] == 'i' && NO_EFFECTIVE_CHANGE[0] == 'n';
    assert INITIAL_ASSIGNMENT !in HotTexts();
    var changed := {INITIAL_ASSIGNMENT};
    assert INITIAL_ASSIGNMENT in changed && NO_EFFECTIVE_CHANGE !in changed;
    assert changed * HotTexts() == {} && changed - {} == changed;
  }

  // What reloading the hot sections achieves

  /** `a` with the value of `b` at `path`, where both lead there. */
  function Grafted(a: Json, b: Json, path: seq<string>): Json
    decreases |path|
  {
    if path == [] then b
    else if a.Obj? && b.Obj? then Obj(a.fields[path[0] := Grafted(Get(a, path[0]), Get(b, path[0]), path[1..])])
    else a
  }

  /** The running configuration after its hot sections were replaced by those of the new one. */
  function HotApplied(a: Json, b: Json): Json {
    Grafted(Grafted(Grafted(a, b, RISK_CONFIG), b, OPEN_ORDER_CAP), b, REMAINING_BOT_NOTIONAL)
  }

  lemma {:induction false} SameNeverDiffers(a: Json, path: seq<string>)
    ensures !DiffersAt(a, a, path)
    decreases |path|
  {
    if a.Obj? && path != [] {
      SameNeverDiffers(Get(a, path[0]), path[1..]);
    }
  }

  /** Grafting removes the differences under the grafted section and no others. */
  lemma {:induction false} GraftedDiffers(a: Json, b: Json, section: seq<string>, path: seq<string>)
    ensures DiffersAt(Grafted(a, b, section), b, path) <==> DiffersAt(a, b, path) && !(section <= path)
    decreases |section|
  {
    if section == [] {
      SameNeverDiffers(b, path);
    } else if a.Obj? && b.Obj? && path != [] {
      var key := path[0];
      if key == section[0] {
        GraftedDiffers(Get(a, key), Get(b, key), section[1..], path[1..]);
        assert section <= path <==> section[1..] <= path[1..] by {
          assert section == [key] + section[1..] && path == [key] + path[1..];
        }
      } else {
        assert !(section <= path);
      }
    }
  }

  ghost predicate UnderHot(path: seq<string>) {
    exists section :: section in HOT_SECTIONS && section <= path
  }

  lemma HotAppliedDiffers(a: Json, b: Json, path: seq<string>)
    ensures DiffersAt(HotApplied(a, b), b, path) <==> DiffersAt(a, b, path) && !UnderHot(path)
  {
    var once := Grafted(a, b, RISK_CONFIG);
    var twice := Grafted(once, b, OPEN_ORDER_CAP);
    GraftedDiffers(a, b, RISK_CONFIG, path);
    GraftedDiffers(once, b, OPEN_ORDER_CAP, path);
    GraftedDiffers(twice, b, REMAINING_BOT_NOTIONAL, path);
    assert RISK_CONFIG in HOT_SECTIONS && OPEN_ORDER_CAP in HOT_SECTIONS && REMAINING_BOT_NOTIONAL in HOT_SECTIONS;
  }

  /** A reload of the hot sections is enough exactly when every difference lies under one. */
  lemma HotAppliedAgrees(a: Json, b: Json)
    ensures Agree(HotApplied(a, b), b) <==> forall path | DiffersAt(a, b, path) :: UnderHot(path)
  {
    AgreeMeansNoDifference(HotApplied(a, b), b);
    forall path ensures DiffersAt(HotApplied(a, b), b, path) <==> DiffersAt(a, b, path) && !UnderHot(path) {
      HotAppliedDiffers(a, b, path);
    }
  }

  predicate HotText(text: string) {
    FirstHotSection(text, HOT_SECTIONS).Some?
  }

  lemma CollapsedIs(text: string)
    ensures HotText(text) ==> Collapsed(text) in HotTexts()
    ensures !HotText(text) ==> Collapsed(text) == text && text !in HotTexts()
  {}

  /** What the summary calls for a restart: the texts under no hot section. */
  lemma ColdSections(diff: set<string>)
    ensures Sections(diff) - HotTexts() == set text | text in diff && !HotText(text)
  {
    var cold := set text | text in diff && !HotText(text);
    forall x | x in Sections(diff) - HotTexts() ensures x in cold {
      var text :| text in diff && Collapsed(text) == x;
      CollapsedIs(text);
    }
    forall x | x in cold ensures x in Sections(diff) - HotTexts() {
      CollapsedIs(x);
      assert Collapsed(x) in Sections(diff);
    }
  }

  lemma MarkerSections(diff: set<string>)
    ensures Sections(diff) == {NO_EFFECTIVE_CHANGE} <==> diff == {NO_EFFECTIVE_CHANGE}
  {
    MarkerIsNotHot();
    CollapsedIs(NO_EFFECTIVE_CHANGE);
    if diff == {NO_EFFECTIVE_CHANGE} {
      assert Collapsed(NO_EFFECTIVE_CHANGE) in Sections(diff);
    }
    if Sections(diff) == {NO_EFFECTIVE_CHANGE} {
      MarkerNotASection();
      var text :| text in diff && Collapsed(text) == NO_EFFECTIVE_CHANGE;
      forall other | other in diff ensures other == NO_EFFECTIVE_CHANGE {
        assert Collapsed(other) in Sections(diff);
        CollapsedIs(other);
      }
    }
  }

  lemma MarkerNotASection()
    ensures NO_EFFECTIVE_CHANGE !in HotTexts()
  {
    SectionsAreNested();
    assert NO_EFFECTIVE_CHANGE[0] == 'n';
  }

  lemma MarkerIsNotHot()
    ensures !HotText(NO_EFFECTIVE_CHANGE)
  {
    SectionsAreNested();
    assert NO_EFFECTIVE_CHANGE[0] == 'n';
  }

  // What the classification means

  /** A text that reads as lying in a hot section while its keys do not lead there. */
  ghost predicate Misread(path: seq<string>) {
    HotText(PathText("", path)) && !UnderHot(path)
  }

  lemma PlainIsNeverMisread(path: seq<string>)
    requires path != [] && PlainPath(path)
    ensures HotText(PathText("", path)) <==> UnderHot(path)
  {
    SectionsAreNested();
    forall section | section in HOT_SECTIONS
      ensures TextUnder(PathText("", path), SectionText(section)) <==> section <= path
    {
      UnderInTextIsUnderInKeys(path, section);
    }
  }

  /** Reloading hot is all that is needed, and something is. */
  ghost predicate HotSuffices(a: Json, b: Json) {
    !Agree(a, b) && Agree(HotApplied(a, b), b)
  }

  lemma DiffEmptyMeansAgree(a: Json, b: Json, diff: set<string>)
    requires a.Obj? && b.Obj? && IsDiff(diff, a, b, "")
    ensures diff == {} <==> Agree(a, b)
  {
    AgreeMeansNoDifference(a, b);
    if Differ(a, b) {
      var path :| DiffersAt(a, b, path);
      assert DiffTextAt(a, b, "", PathText("", path));
    }
    if text :| text in diff {
      assert DiffTextAt(a, b, "", text);
    }
  }

  /** "noop" is said of configurations that agree, and of those whose only differing path reads as the marker. */
  lemma NoopExactly(a: Json, b: Json, diff: set<string>)
    requires a.Obj? && b.Obj? && IsDiff(diff, a, b, "")
    ensures Classified(diff).policy.Noop? <==> Agree(a, b) || diff == {NO_EFFECTIVE_CHANGE}
  {
    DiffEmptyMeansAgree(a, b, diff);
    MarkerSections(diff);
  }

  lemma HotReloadMeansAllHot(a: Json, b: Json, diff: set<string>)
    requires a.Obj? && b.Obj? && IsDiff(diff, a, b, "") && diff != {NO_EFFECTIVE_CHANGE}
    ensures Classified(diff).policy.HotReload? <==> diff != {} && forall text :: text in diff ==> HotText(text)
    ensures Classified(diff).policy.RestartRequired? <==> exists text :: text in diff && !HotText(text)
  {
    MarkerSections(diff);
    ColdSections(diff);
    var cold := set text | text in diff && !HotText(text);
    if text :| text in diff && !HotText(text) {
      assert text in cold;
    }
    if diff != {} {
      assert Classified(diff).restart == cold;
    }
  }

  /** When "hot_reload" is said, it is enough exactly if no path that differs is misread. */
  lemma HotReloadSoundExactly(a: Json, b: Json, diff: set<string>)
    requires a.Obj? && b.Obj? && IsDiff(diff, a, b, "") && Classified(diff).policy.HotReload?
    ensures HotSuffices(a, b) <==> forall path | DiffersAt(a, b, path) :: !Misread(path)
  {
    NoopExactly(a, b, diff);
    HotReloadMeansAllHot(a, b, diff);
    HotAppliedAgrees(a, b);
    forall path | DiffersAt(a, b, path) ensures HotText(PathText("", path)) {
      assert DiffTextAt(a, b, "", PathText("", path));
    }
  }

  lemma HotKeysReadHot(path: seq<string>)
    requires UnderHot(path)
    ensures HotText(PathText("", path))
  {
    var section :| section in HOT_SECTIONS && section <= path;
    SectionsAreNested();
    UnderInKeysIsUnderInText(path, section);
  }

  /** When "restart_required" is said, a reload of the hot sections is not enough, whatever the keys are. */
  lemma RestartIsNeeded(a: Json, b: Json, diff: set<string>)
    requires a.Obj? && b.Obj? && IsDiff(diff, a, b, "") && Classified(diff).policy.RestartRequired?
    ensures !Agree(a, b) && !Agree(HotApplied(a, b), b)
  {
    NoopExactly(a, b, diff);
    HotReloadMeansAllHot(a, b, diff);
    HotAppliedAgrees(a, b);
    var text :| text in diff && !HotText(text);
    var path :| DiffersAt(a, b, path) && PathText("", path) == text;
    if UnderHot(path) {
      HotKeysReadHot(path);
    }
  }

  ghost predicate PlainConfig(a: Json) {
    a.Obj? && PlainKeys(a) && NO_EFFECTIVE_CHANGE !in a.fields
  }

  lemma UndottedPath(path: seq<string>, text: string)
    requires path != [] && PlainPath(path) && PathText("", path) == text && Split(text, '.') == [text]
    ensures path == [text]
  {
    SplitPathText(path);
  }

  lemma TopLevelDifference(a: Json, b: Json, key: string)
    requires a.Obj? && b.Obj? && DiffersAt(a, b, [key])
    ensures key in a.fields || key in b.fields
  {}

  lemma MarkerIsNoDifference(a: Json, b: Json, diff: set<string>)
    requires PlainConfig(a) && PlainConfig(b) && IsDiff(diff, a, b, "")
    ensures NO_EFFECTIVE_CHANGE !in diff
  {
    if DiffTextAt(a, b, "", NO_EFFECTIVE_CHANGE) {
      var path :| DiffersAt(a, b, path) && PathText("", path) == NO_EFFECTIVE_CHANGE;
      DifferencesArePlain(a, b, path);
      MarkerSplits();
      UndottedPath(path, NO_EFFECTIVE_CHANGE);
      TopLevelDifference(a, b, NO_EFFECTIVE_CHANGE);
    }
  }

  lemma MarkerSplits()
    ensures Split(NO_EFFECTIVE_CHANGE, '.') == [NO_EFFECTIVE_CHANGE]
  {
    assert '.' !in NO_EFFECTIVE_CHANGE;
    SplitPlain(NO_EFFECTIVE_CHANGE, '.');
  }

  /**
   For configurations with plain keys the three answers mean what they say: nothing changed, the hot
   sections of the new configuration turn the old one into it, or they do not.
   */
  lemma PolicySaysWhatIsNeeded(a: Json, b: Json, diff: set<string>)
    requires PlainConfig(a) && PlainConfig(b) && IsDiff(diff, a, b, "")
    ensures match Classified(diff).policy
            case Noop => Agree(a, b)
            case HotReload => HotSuffices(a, b)
            case RestartRequired => !Agree(a, b) && !Agree(HotApplied(a, b), b)
  {
    MarkerIsNoDifference(a, b, diff);
    NoopExactly(a, b, diff);
    match Classified(diff).policy
    case Noop =>
    case HotReload =>
      HotReloadSoundExactly(a, b, diff);
      forall path | DiffersAt(a, b, path) ensures !Misread(path) {
        DifferencesArePlain(a, b, path);
        PlainIsNeverMisread(path);
      }
    case RestartRequired =>
      RestartIsNeeded(a, b, diff);
  }

  /** The sections that need a restart are the paths that still differ after a hot reload. */
  lemma RestartSectionsStillDiffer(a: Json, b: Json, diff: set<string>)
    requires PlainConfig(a) && PlainConfig(b) && IsDiff(diff, a, b, "") && diff != {}
    ensures IsDiff(Classified(diff).restart, HotApplied(a, b), b, "")
    ensures Classified(diff).hot + Classified(diff).restart == Classified(diff).changed
    ensures Classified(diff).hot !! Classified(diff).restart && Classified(diff).hot <= HotTexts()
  {
    MarkerIsNoDifference(a, b, diff);
    MarkerSections(diff);
    ColdSections(diff);
    var c := HotApplied(a, b);
    forall text ensures text in Classified(diff).restart <==> DiffTextAt(c, b, "", text) {
      if text in diff && !HotText(text) {
        var path :| DiffersAt(a, b, path) && PathText("", path) == text;
        DifferencesArePlain(a, b, path);
        PlainIsNeverMisread(path);
        HotAppliedDiffers(a, b, path);
        assert DiffersAt(c, b, path);
      }
      if DiffTextAt(c, b, "", text) {
        var path :| DiffersAt(c, b, path) && PathText("", path) == text;
        HotAppliedDiffers(a, b, path);
        DifferencesArePlain(a, b, path);
        PlainIsNeverMisread(path);
        assert DiffTextAt(a, b, "", text);
      }
    }
  }

  /** The diff is the same seen from either side. */
  lemma DiffIsSymmetric(a: Json, b: Json, diff: set<string>)
    ensures IsDiff(diff, a, b, "") <==> IsDiff(diff, b, a, "")
  {
    forall text ensures DiffTextAt(a, b, "", text) <==> DiffTextAt(b, a, "", text) {
      forall path ensures DiffersAt(a, b, path) <==> DiffersAt(b, a, path) {
        DiffersBothWays(a, b, path);
      }
    }
  }

  // Why keys have to be plain

  const DOTTED := "arbitrage_runtime.risk_config"

  lemma DottedIsMisread()
    ensures Misread([DOTTED]) && HotText(DOTTED) && |DOTTED| != |NO_EFFECTIVE_CHANGE|
  {
    assert RISK_CONFIG in HOT_SECTIONS;
    assert PathText("", [DOTTED]) == DOTTED == SectionText(RISK_CONFIG);
    SectionsAreNested();
  }

  /** A dotted top-level key passes for a hot section, and nothing hot brings the change about. */
  lemma DottedKeyIsMisread(diff: set<string>)
    requires IsDiff(diff, Obj(map[DOTTED := Number(1.0)]), Obj(map[]), "")
    ensures Classified(diff).policy.HotReload? && !HotSuffices(Obj(map[DOTTED := Number(1.0)]), Obj(map[]))
  {
    var a, b := Obj(map[DOTTED := Number(1.0)]), Obj(map[]);
    DottedIsMisread();
    OneKeyDiffers(DOTTED, diff);
    assert DOTTED in diff;
    HotReloadMeansAllHot(a, b, diff);
    HotReloadSoundExactly(a, b, diff);
  }

  /** A configuration that differs in a top-level key of that name is said not to have changed. */
  lemma MarkerKeyHidesAChange(diff: set<string>)
    requires IsDiff(diff, Obj(map[NO_EFFECTIVE_CHANGE := Number(1.0)]), Obj(map[]), "")
    ensures Classified(diff).policy.Noop? && !Agree(Obj(map[NO_EFFECTIVE_CHANGE := Number(1.0)]), Obj(map[]))
  {
    OneKeyDiffers(NO_EFFECTIVE_CHANGE, diff);
    NoopExactly(Obj(map[NO_EFFECTIVE_CHANGE := Number(1.0)]), Obj(map[]), diff);
  }

  lemma OneKeyText(key: string)
    ensures PathText("", [key]) == key
  {
    assert PathText("", [key]) == PathText(Extended("", [key][0]), [key][1..]);
    assert Extended("", [key][0]) == key && [key][1..] == [];
  }

  lemma OneKeyDiffers(key: string, diff: set<string>)
    ensures var a, b := Obj(map[key := Number(1.0)]), Obj(map[]);
      !Agree(a, b) && DiffersAt(a, b, [key]) && (IsDiff(diff, a, b, "") ==> diff == {key})
  {
    var a, b := Obj(map[key := Number(1.0)]), Obj(map[]);
    assert key in a.fields && a.fields[key] != Null;
    OneKeyText(key);
    assert DiffersAt(a, b, [key]);
    assert DiffTextAt(a, b, "", key);
    forall path | DiffersAt(a, b, path) ensures path == [key] {
      assert path == [path[0]] + path[1..];
      assert DiffersAt(Get(a, path[0]), Null, path[1..]);
    }
    if IsDiff(diff, a, b, "") {
      forall text | text in diff ensures text == key {
        var path :| DiffersAt(a, b, path) && PathText("", path) == text;
      }
    }
  }
}
