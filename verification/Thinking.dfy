/** Thinking configurations fitted to what a model supports. */
module Thinking {
  import opened Strings
  import Sums

  datatype Mode = BudgetMode | LevelMode | NoneMode | AutoMode

  datatype Config = Config(mode: Mode, budget: int, level: string)

  datatype Support = Support(min: int, max: int, zeroAllowed: bool, dynamicAllowed: bool, levels: seq<string>) {
    predicate HasRange() { min > 0 || max > 0 }
    predicate HasLevels() { levels != [] }
    /** A range as the model tables state it. */
    predicate Proper() { 0 <= min <= max }
  }

  datatype Error = NotSupported | UnknownLevel | LevelNotSupported | BudgetOutOfRange

  datatype Result = Ok(config: Config) | Err(error: Error)

  /** How strictly a configuration is judged: budgets are judged strictly when a request body and its target are of one
      family, unsupported levels are clamped when they are of two. */
  datatype Rules = Rules(strictBudget: bool, clampLevels: bool, toClaude: bool)

  // ---------- levels and budgets ----------

  const STANDARD: seq<string> := ["minimal", "low", "medium", "high", "xhigh", "max"]

  predicate NamesNone(level: string) { level == "none" }

  predicate NamesAuto(level: string) { level == "auto" }

  /** "auto" with a capital letter in it, which names the budget -1 but not the level. */
  predicate CapitalAuto(level: string) { level != "auto" && ToLower(level) == "auto" }

  function LevelBudget(level: string): Option<int>
  {
    var l := ToLower(level);
    if l == "none" then Some(0) else if l == "auto" then Some(-1)
    else if l == "minimal" then Some(512) else if l == "low" then Some(1024)
    else if l == "medium" then Some(8192) else if l == "high" then Some(24576)
    else if l == "xhigh" then Some(32768) else if l == "max" then Some(128000)
    else None
  }

  function BudgetLevel(budget: int): Option<string>
  {
    if budget < -1 then None
    else if budget == -1 then Some("auto")
    else if budget == 0 then Some("none")
    else if budget <= 512 then Some("minimal")
    else if budget <= 1024 then Some("low")
    else if budget <= 8192 then Some("medium")
    else if budget <= 24576 then Some("high")
    else Some("xhigh")
  }

  /** Level to budget and back is the identity on every canonical level but the top one. */
  lemma LevelRoundTrip(level: string)
    requires LevelBudget(level).Some?
    ensures BudgetLevel(LevelBudget(level).value) == Some(if ToLower(level) == "max" then "xhigh" else ToLower(level))
  {
  }

  function LevelIndex(level: string): (i: int)
    ensures -1 <= i < |STANDARD|
    ensures i >= 0 ==> EqualFold(level, STANDARD[i])
  {
    if EqualFold(level, "minimal") then 0 else if EqualFold(level, "low") then 1
    else if EqualFold(level, "medium") then 2 else if EqualFold(level, "high") then 3
    else if EqualFold(level, "xhigh") then 4 else if EqualFold(level, "max") then 5
    else -1
  }

  predicate Supported(level: string, levels: seq<string>)
  {
    exists i :: 0 <= i < |levels| && EqualFold(level, TrimSpace(levels[i]))
  }

  method IsLevelSupported(level: string, levels: seq<string>) returns (r: bool)
    ensures r == Supported(level, levels)
  {
    for i := 0 to |levels|
      invariant !Supported(level, levels[..i])
    {
      if EqualFold(level, TrimSpace(levels[i])) {
        return true;
      }
      assert levels[..i + 1] == levels[..i] + [levels[i]];
    }
    assert levels[..|levels|] == levels;
    r := false;
  }

  /** The standard positions a level list offers. */
  function Offered(levels: seq<string>): (r: set<int>)
    ensures forall i :: i in r ==> 0 <= i < |STANDARD|
  {
    if levels == [] then {}
    else
      var i := LevelIndex(TrimSpace(levels[|levels| - 1]));
      (if i >= 0 then {i} else {}) + Offered(levels[..|levels| - 1])
  }

  function Distance(a: int, b: int): nat
  {
    if a < b then b - a else a - b
  }

  /** i is offered, nothing offered is nearer to pos, and an equally near one is not lower. */
  predicate IsNearest(i: int, pos: int, offered: set<int>)
  {
    i in offered && forall j :: j in offered ==>
      Distance(pos, i) < Distance(pos, j) || (Distance(pos, i) == Distance(pos, j) && i <= j)
  }

  lemma Inhabited(pos: int, offered: set<int>, d: nat)
    requires 0 <= pos < |STANDARD| && offered != {}
    requires forall i :: i in offered ==> 0 <= i < |STANDARD| && Distance(pos, i) >= d
    ensures d < |STANDARD|
  {
    var i := Sums.SomeMember(offered);
  }

  /** Search outwards from pos, the lower side first. */
  ghost function Nearest(pos: int, offered: set<int>, d: nat): int
    requires 0 <= pos < |STANDARD| && offered != {}
    requires forall i :: i in offered ==> 0 <= i < |STANDARD| && Distance(pos, i) >= d
    decreases |STANDARD| - d
  {
    if pos - d in offered then pos - d
    else if pos + d in offered then pos + d
    else
      Inhabited(pos, offered, d);
      Nearest(pos, offered, d + 1)
  }

  lemma {:induction false} NearestIsNearest(pos: int, offered: set<int>, d: nat)
    requires 0 <= pos < |STANDARD| && offered != {}
    requires forall i :: i in offered ==> 0 <= i < |STANDARD| && Distance(pos, i) >= d
    ensures IsNearest(Nearest(pos, offered, d), pos, offered)
    decreases |STANDARD| - d
  {
    if pos - d !in offered && pos + d !in offered {
      Inhabited(pos, offered, d);
      NearestIsNearest(pos, offered, d + 1);
    }
  }

  ghost function Clamp(level: string, levels: seq<string>): string
  {
    if Supported(level, levels) || LevelIndex(level) == -1 || Offered(levels) == {} then level
    else
      var i := Nearest(LevelIndex(level), Offered(levels), 0);
      NearestIsNearest(LevelIndex(level), Offered(levels), 0);
      STANDARD[i]
  }

  lemma {:induction false} OfferedSupported(levels: seq<string>, i: int)
    requires i in Offered(levels)
    ensures Supported(STANDARD[i], levels)
  {
    var k := |levels| - 1;
    if LevelIndex(TrimSpace(levels[k])) == i {
      assert EqualFold(STANDARD[i], TrimSpace(levels[k]));
    } else {
      OfferedSupported(levels[..k], i);
      var j :| 0 <= j < k && EqualFold(STANDARD[i], TrimSpace(levels[..k][j]));
      assert levels[..k][j] == levels[j];
    }
  }

  /** A clamped level is kept, or is the nearest offered one, the lower of two equally near, and supported. */
  lemma ClampedIsNearest(level: string, levels: seq<string>)
    ensures var r := Clamp(level, levels);
      if Supported(level, levels) || LevelIndex(level) == -1 || Offered(levels) == {} then r == level
      else exists i :: IsNearest(i, LevelIndex(level), Offered(levels)) && r == STANDARD[i] && Supported(r, levels)
  {
    if !Supported(level, levels) && LevelIndex(level) != -1 && Offered(levels) != {} {
      var i := Nearest(LevelIndex(level), Offered(levels), 0);
      NearestIsNearest(LevelIndex(level), Offered(levels), 0);
      OfferedSupported(levels, i);
    }
  }

  lemma NearestUnique(i: int, j: int, pos: int, offered: set<int>)
    requires IsNearest(i, pos, offered) && IsNearest(j, pos, offered)
    ensures i == j
  {
  }

  /** One pass over the list, keeping the best position so far. */
  method ClampLevel(level: string, levels: seq<string>) returns (r: string)
    ensures r == Clamp(level, levels)
  {
    var supported := IsLevelSupported(level, levels);
    if levels == [] || supported {
      return level;
    }
    var pos := LevelIndex(level);
    if pos == -1 {
      return level;
    }
    var bestIdx, bestDist: int := -1, |STANDARD| + 1;
    for k := 0 to |levels|
      invariant bestIdx == -1 ==> bestDist == |STANDARD| + 1 && Offered(levels[..k]) == {}
      invariant bestIdx != -1 ==> IsNearest(bestIdx, pos, Offered(levels[..k])) && bestDist == Distance(pos, bestIdx)
    {
      assert levels[..k + 1][..k] == levels[..k] && levels[..k + 1][k] == levels[k];
      var idx := LevelIndex(TrimSpace(levels[k]));
      if idx != -1 {
        var dist := Distance(pos, idx);
        if dist < bestDist || (dist == bestDist && idx < bestIdx) {
          bestIdx, bestDist := idx, dist;
        }
      }
    }
    assert levels[..|levels|] == levels;
    if bestIdx >= 0 {
      NearestIsNearest(pos, Offered(levels), 0);
      NearestUnique(bestIdx, Nearest(pos, Offered(levels), 0), pos, Offered(levels));
      return STANDARD[bestIdx];
    }
    r := level;
  }

  // ---------- provider families ----------

  predicate GeminiFamily(p: string)
  {
    p == "gemini" || p == "gemini-cli" || p == "antigravity"
  }

  predicate OpenAIFamily(p: string)
  {
    p == "openai" || p == "openai-response" || p == "codex"
  }

  predicate SameFamily(a: string, b: string)
  {
    a == b || (GeminiFamily(a) && GeminiFamily(b)) || (OpenAIFamily(a) && OpenAIFamily(b))
  }

  function RulesFor(fromFormat: string, toFormat: string, fromSuffix: bool): Rules
  {
    var from, to := ToLower(TrimSpace(fromFormat)), ToLower(TrimSpace(toFormat));
    Rules(!fromSuffix && from != "" && SameFamily(from, to), !SameFamily(from, to), to == "claude")
  }

  // ---------- validation ----------

  /** Go's division by two truncates toward zero. */
  function Half(n: int): int
  {
    if n >= 0 then n / 2 else -(-n / 2)
  }

  function ClampBudget(value: int, s: Support): int
  {
    if value == -1 then value
    else if value == 0 && !s.zeroAllowed then s.min
    else if s.min == 0 && s.max == 0 then value
    else if value < s.min then (if value == 0 && s.zeroAllowed then 0 else s.min)
    else if value > s.max then s.max
    else value
  }

  /** First the form: a budget for a model with a range alone, a level for a model with levels alone. */
  ghost function Adapt(c: Config, s: Support): Result
  {
    if s.HasRange() && !s.HasLevels() && c.mode == LevelMode && !NamesAuto(c.level) then
      if LevelBudget(c.level).None? then Err(UnknownLevel) else Ok(Config(BudgetMode, LevelBudget(c.level).value, ""))
    else if !s.HasRange() && s.HasLevels() && c.mode == BudgetMode then
      if BudgetLevel(c.budget).None? then Err(UnknownLevel)
      else Ok(Config(LevelMode, 0, Clamp(BudgetLevel(c.budget).value, s.levels)))
    else Ok(c)
  }

  /** Then one spelling for none and auto. */
  function Canonical(c: Config): Config
  {
    if c.mode == LevelMode && NamesNone(c.level) then Config(NoneMode, 0, "")
    else if c.mode == LevelMode && NamesAuto(c.level) then Config(AutoMode, -1, "")
    else if c.mode == BudgetMode && c.budget == 0 then Config(NoneMode, 0, "")
    else c
  }

  ghost function WithSupportedLevel(c: Config, s: Support, rules: Rules): Result
  {
    if !s.HasLevels() || c.mode != LevelMode || Supported(c.level, s.levels) then Ok(c)
    else if rules.clampLevels && Supported(Clamp(c.level, s.levels), s.levels) then
      Ok(c.(level := Clamp(c.level, s.levels)))
    else Err(LevelNotSupported)
  }

  predicate OutOfRange(c: Config, s: Support)
  {
    (s.min != 0 || s.max != 0) && (c.budget < s.min || c.budget > s.max || (c.budget == 0 && !s.zeroAllowed))
  }

  function MidRange(c: Config, s: Support): Config
  {
    if s.HasLevels() && s.min == 0 && s.max == 0 then Config(LevelMode, 0, "medium")
    else
      var mid := Half(s.min + s.max);
      if mid <= 0 && s.zeroAllowed then c.(mode := NoneMode, budget := 0)
      else c.(mode := BudgetMode, budget := if mid <= 0 then s.min else mid)
  }

  function Settle(c: Config, s: Support, rules: Rules): Config
  {
    if c.mode == NoneMode && rules.toClaude then c.(budget := 0, level := "")
    else
      var c := if c.mode == LevelMode then c else c.(budget := ClampBudget(c.budget, s));
      if c.mode == NoneMode && c.budget > 0 && s.HasLevels() then c.(level := s.levels[0]) else c
  }

  ghost function Validate(c: Config, support: Option<Support>, rules: Rules): Result
  {
    if support.None? then (if c.mode == NoneMode then Ok(c) else Err(NotSupported))
    else
      var s := support.value;
      var adapted := Adapt(c, s);
      if adapted.Err? then adapted
      else
        var checked := WithSupportedLevel(Canonical(adapted.config), s, rules);
        if checked.Err? then checked
        else
          var c' := checked.config;
          if rules.strictBudget && c'.mode == BudgetMode && c.mode != LevelMode && OutOfRange(c', s) then
            Err(BudgetOutOfRange)
          else Ok(Settle(if c'.mode == AutoMode && !s.dynamicAllowed then MidRange(c', s) else c', s, rules))
  }

  /** The validation as it rewrites its own copy of the configuration, field by field. */
  method ValidateConfig(config: Config, support: Option<Support>, fromFormat: string, toFormat: string,
                        fromSuffix: bool)
    returns (r: Result)
    ensures r == Validate(config, support, RulesFor(fromFormat, toFormat, fromSuffix))
  {
    hide Adapt, WithSupportedLevel, RulesFor, Settle, MidRange, NamesNone, NamesAuto;
    var rules := RulesFor(fromFormat, toFormat, fromSuffix);
    if support.None? {
      if config.mode != NoneMode {
        return Err(NotSupported);
      }
      return Ok(config);
    }
    var s := support.value;

    r := AdaptForm(config, s);
    if r.Err? {
      return;
    }
    var c := r.config;
    var budgetDerivedFromLevel := c.mode == BudgetMode && config.mode == LevelMode;

    if c.mode == LevelMode && NamesNone(c.level) {
      c := c.(mode := NoneMode, budget := 0, level := "");
    }
    if c.mode == LevelMode && NamesAuto(c.level) {
      c := c.(mode := AutoMode, budget := -1, level := "");
    }
    if c.mode == BudgetMode && c.budget == 0 {
      c := c.(mode := NoneMode, level := "");
    }
    assert c == Canonical(r.config);

    r := CheckLevel(c, s, rules);
    if r.Err? {
      return;
    }
    c := r.config;

    if rules.strictBudget && c.mode == BudgetMode && !budgetDerivedFromLevel {
      if s.min != 0 || s.max != 0 {
        if c.budget < s.min || c.budget > s.max || (c.budget == 0 && !s.zeroAllowed) {
          return Err(BudgetOutOfRange);
        }
      }
    }

    if c.mode == AutoMode && !s.dynamicAllowed {
      c := ConvertAutoToMidRange(c, s);
    }

    c := FitBudget(c, s, rules);
    r := Ok(c);
  }

  method FitBudget(config: Config, s: Support, rules: Rules) returns (c: Config)
    ensures c == Settle(config, s, rules)
  {
    hide ClampBudget;
    c := config;
    if c.mode == NoneMode && rules.toClaude {
      c := c.(budget := 0, level := "");
    } else {
      if c.mode != LevelMode {
        c := c.(budget := ClampBudget(c.budget, s));
      }
      if c.mode == NoneMode && c.budget > 0 && s.HasLevels() {
        c := c.(level := s.levels[0]);
      }
    }
  }

  method AdaptForm(config: Config, s: Support) returns (r: Result)
    ensures r == Adapt(config, s)
    ensures r.Ok? && r.config.mode == BudgetMode ==> config.mode == BudgetMode || config.mode == LevelMode
    ensures r.Ok? && r.config.mode == LevelMode ==> config.mode == BudgetMode || config.mode == LevelMode
  {
    var c := config;
    if s.HasRange() && !s.HasLevels() {
      if c.mode == LevelMode && !NamesAuto(c.level) {
        var budget := LevelBudget(c.level);
        if budget.None? {
          return Err(UnknownLevel);
        }
        c := c.(mode := BudgetMode, budget := budget.value, level := "");
      }
    } else if !s.HasRange() && s.HasLevels() {
      if c.mode == BudgetMode {
        var level := BudgetLevel(c.budget);
        if level.None? {
          return Err(UnknownLevel);
        }
        var clamped := ClampLevel(level.value, s.levels);
        c := c.(mode := LevelMode, level := clamped, budget := 0);
      }
    }
    r := Ok(c);
  }

  method CheckLevel(config: Config, s: Support, rules: Rules) returns (r: Result)
    ensures r == WithSupportedLevel(config, s, rules)
    ensures r.Ok? ==> r.config == config.(level := r.config.level)
  {
    var c := config;
    if s.HasLevels() && c.mode == LevelMode {
      var supported := IsLevelSupported(c.level, s.levels);
      if !supported {
        if rules.clampLevels {
          var clamped := ClampLevel(c.level, s.levels);
          c := c.(level := clamped);
        }
        supported := IsLevelSupported(c.level, s.levels);
        if !supported {
          return Err(LevelNotSupported);
        }
      }
    }
    r := Ok(c);
  }

  /** For levels alone the level is medium. For a range as the tables state it the budget is its middle, a half rounded
      down; where that leaves nothing and the model can be disabled, it is disabled. */
  method ConvertAutoToMidRange(config: Config, s: Support) returns (c: Config)
    ensures c == MidRange(config, s)
    ensures s.HasLevels() && s.min == 0 && s.max == 0 ==> c == Config(LevelMode, 0, "medium")
    ensures s.Proper() && (s.HasRange() || !s.HasLevels()) ==>
      && c.level == config.level && (c.mode == BudgetMode || c.mode == NoneMode)
      && (c.mode == BudgetMode ==> s.min <= c.budget <= s.max && 0 <= (s.max - c.budget) - (c.budget - s.min) <= 1)
      && (c.mode == NoneMode ==> c.budget == 0)
      && (c.mode == NoneMode <==> s.zeroAllowed && s.min + s.max < 2)
  {
    c := config;
    if s.HasLevels() && s.min == 0 && s.max == 0 {
      c := c.(mode := LevelMode, level := "medium", budget := 0);
      return;
    }
    var mid := Half(s.min + s.max);
    if mid <= 0 && s.zeroAllowed {
      c := c.(mode := NoneMode, budget := 0);
    } else if mid <= 0 {
      c := c.(mode := BudgetMode, budget := s.min);
    } else {
      c := c.(mode := BudgetMode, budget := mid);
    }
  }

  // ---------- what a successful validation guarantees ----------

  /** The configuration asks, in whatever spelling, for the model's own choice. */
  predicate BecomesAuto(c: Config, s: Support)
  {
    || c.mode == AutoMode
    || (c.mode == LevelMode && NamesAuto(c.level))
    || (!s.HasRange() && s.HasLevels() && c.mode == BudgetMode && c.budget == -1)
  }

  /** A raw -1 reaches the budget: written as one, or as "auto" in capitals for a model with a range alone. */
  predicate RawMinusOne(c: Config, s: Support)
  {
    || (c.mode == BudgetMode && c.budget == -1)
    || (!s.HasLevels() && c.mode == LevelMode && CapitalAuto(c.level))
  }

  predicate MediumFallback(c: Config, s: Support)
  {
    BecomesAuto(c, s) && !s.dynamicAllowed && s.HasLevels() && !s.HasRange()
  }

  lemma StandardLevelsAreNotSpecial(b: int, levels: seq<string>)
    requires BudgetLevel(b).Some?
    ensures NamesNone(Clamp(BudgetLevel(b).value, levels)) <==> b == 0
    ensures NamesAuto(Clamp(BudgetLevel(b).value, levels)) <==> b == -1
  {
    hide Clamp, Supported, Distance;
    assert ToLower("none") == "none" && ToLower("auto") == "auto" && ToLower("high") == "high";
    ClampedIsNearest(BudgetLevel(b).value, levels);
  }

  /** On a model with a range, a resulting budget lies in it exactly when no raw -1 was passed through. */
  lemma BudgetInRange(c: Config, s: Support, rules: Rules)
    requires s.Proper() && s.HasRange()
    requires Validate(c, Some(s), rules).Ok? && Validate(c, Some(s), rules).config.mode == BudgetMode
    ensures s.min <= Validate(c, Some(s), rules).config.budget <= s.max <==> !RawMinusOne(c, s)
  {
    hide Supported, Clamp;
  }

  /** The model's own choice is only passed on where the model allows it. */
  lemma AutoOnlyIfDynamic(c: Config, s: Support, rules: Rules)
    requires Validate(c, Some(s), rules).Ok? && Validate(c, Some(s), rules).config.mode == AutoMode
    ensures s.dynamicAllowed && BecomesAuto(c, s)
  {
    if c.mode == BudgetMode && BudgetLevel(c.budget).Some? {
      StandardLevelsAreNotSpecial(c.budget, s.levels);
    }
    hide Supported, Clamp;
  }

  /** A disabled configuration carries 0, or the least budget of a model that cannot be disabled. */
  lemma NoneCarriesZeroOrMin(c: Config, s: Support, rules: Rules)
    requires s.Proper() && (c.mode == NoneMode ==> c.budget == 0)
    requires Validate(c, Some(s), rules).Ok? && Validate(c, Some(s), rules).config.mode == NoneMode
    ensures Validate(c, Some(s), rules).config.budget == if rules.toClaude || s.zeroAllowed then 0 else s.min
  {
    hide Supported, Clamp;
  }

  /** On a model with levels, a resulting level is supported except for the medium fallback, which is not checked. */
  lemma LevelSupported(c: Config, s: Support, rules: Rules)
    requires s.Proper() && s.HasLevels()
    requires Validate(c, Some(s), rules).Ok? && Validate(c, Some(s), rules).config.mode == LevelMode
    ensures var level := Validate(c, Some(s), rules).config.level;
      if MediumFallback(c, s) then level == "medium" else Supported(level, s.levels)
  {
    if c.mode == BudgetMode && BudgetLevel(c.budget).Some? {
      StandardLevelsAreNotSpecial(c.budget, s.levels);
    }
    hide Supported, Clamp;
  }

  // ---------- validating a validated configuration ----------

  /** The inputs whose validated form does not validate to itself. */
  predicate Unstable(c: Config, s: Support, rules: Rules)
  {
    // the unchecked fallback names a level the model does not have
    || (MediumFallback(c, s) && !Supported("medium", s.levels))
    // a range from 0 whose middle is 0, on a model that cannot be disabled
    || (BecomesAuto(c, s) && !s.dynamicAllowed && !MediumFallback(c, s) && Half(s.min + s.max) <= 0 && !s.zeroAllowed)
    // a negative budget clamped up to a least budget of 0
    || (c.mode == BudgetMode && c.budget < -1 && s.min == 0 && s.HasRange())
    // "auto" in capitals, which a second, strict pass reads as a budget of -1
    || (rules.strictBudget && s.HasRange() && !s.HasLevels() && c.mode == LevelMode && CapitalAuto(c.level))
  }

  lemma ClampBudgetTwice(b: int, s: Support)
    requires s.Proper()
    ensures ClampBudget(ClampBudget(b, s), s) == ClampBudget(b, s)
    ensures s.HasRange() ==> ClampBudget(b, s) == 0 || ClampBudget(b, s) == -1 || s.min <= ClampBudget(b, s) <= s.max
    ensures ClampBudget(b, s) == -1 <==> b == -1
  {
  }

  /** A disabled or automatic result is a fixed point. */
  lemma SwitchedStable(c: Config, s: Support, rules: Rules)
    requires s.Proper() && (c.mode == NoneMode || (c.mode == AutoMode && s.dynamicAllowed))
    ensures Validate(Settle(c, s, rules), Some(s), rules) == Ok(Settle(c, s, rules))
  {
    hide ClampBudget, Supported, Clamp;
    ClampBudgetTwice(c.budget, s);
  }

  lemma BudgetStable(r: Config, s: Support, rules: Rules)
    requires s.Proper() && r.mode == BudgetMode && (s.HasRange() || !s.HasLevels())
      && ClampBudget(r.budget, s) == r.budget
    ensures Validate(r, Some(s), rules) == Ok(r) <==> r.budget != 0 && !(rules.strictBudget && OutOfRange(r, s))
  {
    hide Supported, Clamp;
  }

  lemma LevelStable(r: Config, s: Support, rules: Rules)
    requires r.mode == LevelMode && (!s.HasRange() || s.HasLevels()) && !NamesNone(r.level) && !NamesAuto(r.level)
    ensures Validate(r, Some(s), rules) == Ok(r) <==> !s.HasLevels() || Supported(r.level, s.levels)
  {
    hide Supported, Clamp;
  }

  lemma ClampNotSpecial(level: string, levels: seq<string>)
    ensures NamesNone(Clamp(level, levels)) ==> NamesNone(level)
    ensures NamesAuto(Clamp(level, levels)) ==> NamesAuto(level)
  {
    ClampedIsNearest(level, levels);
  }

  lemma LevelBudgetValues(level: string)
    ensures LevelBudget(level).Some? ==> LevelBudget(level).value >= -1
    ensures LevelBudget(level) == Some(-1) && !NamesAuto(level) <==> CapitalAuto(level)
  {
  }

  /** What the first two steps make of the input. */
  lemma AdaptedForm(c: Config, s: Support)
    requires s.Proper() && Adapt(c, s).Ok?
    ensures var a := Canonical(Adapt(c, s).config);
      && (a.mode == AutoMode <==> BecomesAuto(c, s))
      && (a.mode == LevelMode ==> (!s.HasRange() || s.HasLevels()) && !NamesNone(a.level) && !NamesAuto(a.level))
      && (a.mode == BudgetMode ==> (s.HasRange() || !s.HasLevels()) && a.budget != 0)
      && (a.mode == BudgetMode && c.mode == BudgetMode ==> a.budget == c.budget)
      && (a.mode == BudgetMode && c.mode != BudgetMode ==>
        c.mode == LevelMode && a.budget >= -1 && s.HasRange() && !s.HasLevels())
      && (a.mode == BudgetMode && c.mode == LevelMode ==> (a.budget == -1 <==> CapitalAuto(c.level)))
      && (s.HasRange() && !s.HasLevels() && c.mode == LevelMode && CapitalAuto(c.level) ==> a.mode == BudgetMode)
      && (c.mode == BudgetMode && c.budget < -1 ==> a.mode == BudgetMode)
  {
    LevelBudgetValues(c.level);
    if c.mode == BudgetMode && BudgetLevel(c.budget).Some? {
      StandardLevelsAreNotSpecial(c.budget, s.levels);
    }
    CapitalIsNotAuto(c.level);
    hide Supported, Clamp, LevelBudget, NamesNone, NamesAuto, CapitalAuto;
  }

  lemma CapitalIsNotAuto(level: string)
    ensures CapitalAuto(level) ==> !NamesAuto(level) && !NamesNone(level)
  {
  }

  /** Where the first pass can end. */
  lemma FirstPassEnds(c: Config, s: Support, rules: Rules) returns (last: Config)
    requires s.Proper() && Validate(c, Some(s), rules).Ok?
    ensures Validate(c, Some(s), rules).config == Settle(last, s, rules)
    ensures last.mode == AutoMode ==> s.dynamicAllowed
    ensures last.mode == LevelMode ==>
      (!s.HasRange() || s.HasLevels()) && !NamesNone(last.level) && !NamesAuto(last.level)
    ensures last.mode == LevelMode && s.HasLevels() && !Supported(last.level, s.levels) <==>
            MediumFallback(c, s) && !Supported("medium", s.levels)
    ensures last.mode == BudgetMode ==> s.HasRange() || !s.HasLevels()
    ensures last.mode == BudgetMode && ClampBudget(last.budget, s) == 0 <==>
            || (BecomesAuto(c, s) && !s.dynamicAllowed && !MediumFallback(c, s) && Half(s.min + s.max) <= 0
              && !s.zeroAllowed)
            || (c.mode == BudgetMode && c.budget < -1 && s.min == 0 && s.HasRange())
    ensures last.mode == BudgetMode && rules.strictBudget && s.HasRange() && last.budget == -1 <==>
            rules.strictBudget && s.HasRange() && !s.HasLevels() && c.mode == LevelMode && CapitalAuto(c.level)
  {
    AdaptedForm(c, s);
    hide Adapt, Supported, Clamp, NamesNone, NamesAuto, CapitalAuto, BecomesAuto;
    var a := Canonical(Adapt(c, s).config);
    ClampNotSpecial(a.level, s.levels);
    MediumIsOrdinary();
    var checked := WithSupportedLevel(a, s, rules).config;
    last := if checked.mode == AutoMode && !s.dynamicAllowed then MidRange(checked, s) else checked;
  }

  lemma MediumIsOrdinary()
    ensures !NamesNone("medium") && !NamesAuto("medium")
  {
  }

  /** A validated configuration validates to itself exactly when the input was not one of those. */
  lemma ValidateIdempotent(c: Config, s: Support, rules: Rules)
    requires s.Proper() && Validate(c, Some(s), rules).Ok?
    ensures Validate(Validate(c, Some(s), rules).config, Some(s), rules) == Validate(c, Some(s), rules) <==>
      !Unstable(c, s, rules)
  {
    hide Validate, Supported, Clamp, ClampBudget;
    var last := FirstPassEnds(c, s, rules);
    var r := Settle(last, s, rules);
    match last.mode
    case NoneMode => SwitchedStable(last, s, rules);
    case AutoMode => SwitchedStable(last, s, rules);
    case LevelMode => LevelStable(r, s, rules);
    case BudgetMode =>
      ClampBudgetTwice(last.budget, s);
      BudgetStable(r, s, rules);
  }

  // ---------- inputs at which a promise fails ----------

  /** The fallback can name a level the model does not have. */
  lemma MediumUnsupported()
    ensures var s := Support(0, 0, false, false, ["low", "high"]);
      Validate(Config(AutoMode, -1, ""), Some(s), Rules(false, true, false)) == Ok(Config(LevelMode, 0, "medium"))
      && !Supported("medium", s.levels)
  {
    LowAndHigh();
  }

  lemma LowAndHigh()
    ensures !Supported("medium", ["low", "high"])
  {
    assert TrimSpace("low") == "low" && TrimSpace("high") == "high";
    assert |ToLower("low")| == 3 && |ToLower("high")| == 4 && |ToLower("medium")| == 6;
  }

  /** A budget of -1 passes through, below the range. */
  lemma MinusOneOutOfRange()
    ensures var c, s := Config(BudgetMode, -1, ""), Support(1, 10, false, true, []);
      Validate(c, Some(s), Rules(false, true, false)) == Ok(c) && c.budget < s.min
  {
  }

  /** A successful validation whose result does not validate to itself. */
  ghost predicate ChangesAgain(c: Config, s: Support, rules: Rules)
  {
    var r := Validate(c, Some(s), rules);
    r.Ok? && Validate(r.config, Some(s), rules) != r
  }

  /** One input for each of the four families. */
  lemma MediumChanges()
    ensures ChangesAgain(Config(AutoMode, -1, ""), Support(0, 0, false, false, ["low", "high"]),
      Rules(false, true, false))
  {
    MediumUnsupported();
    ValidateIdempotent(Config(AutoMode, -1, ""), Support(0, 0, false, false, ["low", "high"]),
      Rules(false, true, false));
    hide Validate, Supported, Clamp;
  }

  lemma EmptyMiddleChanges()
    ensures ChangesAgain(Config(AutoMode, -1, ""), Support(0, 1, false, false, []), Rules(false, true, false))
  {
    ValidateIdempotent(Config(AutoMode, -1, ""), Support(0, 1, false, false, []), Rules(false, true, false));
    hide Supported, Clamp, ClampBudget;
  }

  lemma ClampedToZeroChanges()
    ensures ChangesAgain(Config(BudgetMode, -5, ""), Support(0, 10, true, true, []), Rules(false, true, false))
  {
    ValidateIdempotent(Config(BudgetMode, -5, ""), Support(0, 10, true, true, []), Rules(false, true, false));
    hide Supported, Clamp, ClampBudget;
  }

  lemma CapitalAutoChanges()
    ensures ChangesAgain(Config(LevelMode, 0, "AUTO"), Support(1, 10, false, true, []), Rules(true, false, false))
  {
    assert ToLower("AUTO") == "auto";
    assert LevelBudget("AUTO") == Some(-1) && CapitalAuto("AUTO");
    ValidateIdempotent(Config(LevelMode, 0, "AUTO"), Support(1, 10, false, true, []), Rules(true, false, false));
    hide Supported, Clamp, ClampBudget, LevelBudget;
  }
}
