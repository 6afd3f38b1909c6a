/** What a validation makes of each request: its errors, and the one budget or level that can result. */
module ThinkingResults {
  import opened Strings
  import opened Thinking

  /** The budgets of the standard levels, by position. */
  const STANDARD_BUDGETS: seq<int> := [512, 1024, 8192, 24576, 32768, 128000]

  predicate IsStandard(level: string, i: int)
  {
    0 <= i < |STANDARD| && EqualFold(level, STANDARD[i])
  }

  ghost predicate SomeStandard(level: string)
  {
    exists i :: IsStandard(level, i)
  }

  lemma StandardIsLower()
    ensures forall i :: 0 <= i < |STANDARD| ==> ToLower(STANDARD[i]) == STANDARD[i]
    ensures ToLower("none") == "none" && ToLower("auto") == "auto"
  {
    assert ToLower("minimal") == "minimal" && ToLower("low") == "low" && ToLower("medium") == "medium";
    assert ToLower("high") == "high" && ToLower("xhigh") == "xhigh" && ToLower("max") == "max";
  }

  /** A standard level has one position, which is the one looked up. */
  lemma StandardPosition(level: string, i: int)
    ensures IsStandard(level, i) <==> i >= 0 && LevelIndex(level) == i
  {
    StandardIsLower();
  }

  /** The number that a level stands for, and which levels stand for one. */
  lemma LevelBudgetIs(level: string, i: int)
    ensures IsStandard(level, i) ==> LevelBudget(level) == Some(STANDARD_BUDGETS[i])
    ensures ToLower(level) == "none" ==> LevelBudget(level) == Some(0)
    ensures ToLower(level) == "auto" ==> LevelBudget(level) == Some(-1)
    ensures LevelBudget(level).Some? <==> ToLower(level) == "none" || ToLower(level) == "auto" || SomeStandard(level)
  {
    StandardIsLower();
    StandardPosition(level, LevelIndex(level));
    StandardPosition(level, i);
  }

  /** Of the first five levels the i-th is the least whose budget covers b, or the last. */
  predicate LeastCovering(b: int, i: int)
  {
    0 <= i <= 4 && (i < 4 ==> b <= STANDARD_BUDGETS[i]) && (i > 0 ==> STANDARD_BUDGETS[i - 1] < b)
  }

  /** A positive budget is named by the least level whose budget covers it, up to xhigh. */
  lemma BudgetLevelIs(b: int)
    ensures b > 0 ==> exists i :: LeastCovering(b, i) && BudgetLevel(b) == Some(STANDARD[i])
    ensures b == 0 ==> BudgetLevel(b) == Some("none")
    ensures b == -1 ==> BudgetLevel(b) == Some("auto")
    ensures b < -1 ==> BudgetLevel(b) == None
  {
    if b > 0 {
      var i := if b <= 512 then 0 else if b <= 1024 then 1 else if b <= 8192 then 2 else if b <= 24576 then 3 else 4;
      assert LeastCovering(b, i) && BudgetLevel(b) == Some(STANDARD[i]);
    }
  }

  /** The positions a list offers are those of the standard levels it supports. */
  lemma {:induction false} OfferedIff(levels: seq<string>, i: int)
    ensures i in Offered(levels) <==> 0 <= i < |STANDARD| && Supported(STANDARD[i], levels)
    decreases |levels|
  {
    if i in Offered(levels) {
      OfferedSupported(levels, i);
    } else if 0 <= i < |STANDARD| && Supported(STANDARD[i], levels) {
      var n := |levels| - 1;
      var k :| 0 <= k <= n && EqualFold(STANDARD[i], TrimSpace(levels[k]));
      if k == n {
        StandardPosition(TrimSpace(levels[n]), i);
      } else {
        assert levels[..n][k] == levels[k];
        OfferedIff(levels[..n], i);
      }
    }
  }

  ghost predicate SomeOffered(levels: seq<string>)
  {
    exists i :: 0 <= i < |STANDARD| && Supported(STANDARD[i], levels)
  }

  lemma OffersSome(levels: seq<string>)
    ensures SomeOffered(levels) <==> Offered(levels) != {}
  {
    hide Offered, Supported;
    if SomeOffered(levels) {
      var i :| 0 <= i < |STANDARD| && Supported(STANDARD[i], levels);
      OfferedIff(levels, i);
    }
    if i :| i in Offered(levels) { OfferedIff(levels, i); }
  }

  /** r is the supported standard level nearest to the given one, the lower of two equally near. */
  ghost predicate NearestSupported(r: string, level: string, levels: seq<string>)
  {
    exists p, i :: IsStandard(level, p) && 0 <= i < |STANDARD| && r == STANDARD[i] && NearestAt(p, i, levels)
  }

  ghost predicate NearestAt(p: int, i: int, levels: seq<string>)
    requires 0 <= i < |STANDARD|
  {
    && Supported(STANDARD[i], levels)
    && forall j :: 0 <= j < |STANDARD| && Supported(STANDARD[j], levels) ==>
         Distance(p, i) < Distance(p, j) || (Distance(p, i) == Distance(p, j) && i <= j)
  }

  lemma ClampIs(level: string, levels: seq<string>)
    ensures Supported(level, levels) || !SomeStandard(level) || !SomeOffered(levels) ==> Clamp(level, levels) == level
    ensures !Supported(level, levels) && SomeStandard(level) && SomeOffered(levels) ==>
      NearestSupported(Clamp(level, levels), level, levels) && Supported(Clamp(level, levels), levels)
  {
    hide Clamp, Offered, Supported;
    StandardPosition(level, LevelIndex(level));
    forall p ensures IsStandard(level, p) <==> p >= 0 && LevelIndex(level) == p { StandardPosition(level, p); }
    OffersSome(levels);
    ClampedIsNearest(level, levels);
    forall i ensures i in Offered(levels) <==> 0 <= i < |STANDARD| && Supported(STANDARD[i], levels) {
      OfferedIff(levels, i);
    }
    if !Supported(level, levels) && SomeStandard(level) && SomeOffered(levels) {
      var i :| IsNearest(i, LevelIndex(level), Offered(levels)) && Clamp(level, levels) == STANDARD[i];
      assert NearestAt(LevelIndex(level), i, levels);
    }
  }

  // ---------- errors ----------

  predicate RangeOnly(s: Support) { s.HasRange() && !s.HasLevels() }

  predicate LevelsOnly(s: Support) { s.HasLevels() && !s.HasRange() }

  ghost predicate NamesNothing(c: Config, s: Support)
  {
    || (RangeOnly(s) && c.mode == LevelMode && ToLower(c.level) != "none" && ToLower(c.level) != "auto"
        && !SomeStandard(c.level))
    || (LevelsOnly(s) && c.mode == BudgetMode && c.budget < -1)
  }

  ghost predicate LevelMissing(c: Config, s: Support, rules: Rules)
  {
    && s.HasLevels()
    && (|| (c.mode == LevelMode && c.level != "none" && c.level != "auto" && !Supported(c.level, s.levels)
            && !(rules.clampLevels && SomeStandard(c.level) && SomeOffered(s.levels)))
        || (!s.HasRange() && c.mode == BudgetMode && c.budget > 0 && !SomeOffered(s.levels)))
  }

  predicate StrictlyOut(c: Config, s: Support, rules: Rules)
  {
    && rules.strictBudget && s.HasRange() && c.mode == BudgetMode && c.budget != 0
    && !(s.min <= c.budget <= s.max)
  }

  /** A validation fails in exactly four ways. */
  lemma ErrorsExactly(c: Config, support: Option<Support>, rules: Rules)
    requires support.Some? ==> support.value.Proper()
    ensures var r := Validate(c, support, rules);
      && (r == Err(NotSupported) <==> support.None? && c.mode != NoneMode)
      && (r == Err(UnknownLevel) <==> support.Some? && NamesNothing(c, support.value))
      && (r == Err(LevelNotSupported) <==> support.Some? && LevelMissing(c, support.value, rules))
      && (r == Err(BudgetOutOfRange) <==> support.Some? && StrictlyOut(c, support.value, rules))
  {
    if support.Some? {
      match c.mode
      case LevelMode => LevelErrors(c, support.value, rules);
      case BudgetMode => BudgetErrors(c, support.value, rules);
      case _ => SwitchErrors(c, support.value, rules);
    }
    hide Validate;
  }

  ghost predicate FailsAsStated(c: Config, s: Support, rules: Rules)
  {
    var r := Validate(c, Some(s), rules);
    && r != Err(NotSupported)
    && (r == Err(UnknownLevel) <==> NamesNothing(c, s))
    && (r == Err(LevelNotSupported) <==> LevelMissing(c, s, rules))
    && (r == Err(BudgetOutOfRange) <==> StrictlyOut(c, s, rules))
  }

  lemma LevelErrors(c: Config, s: Support, rules: Rules)
    requires s.Proper() && c.mode == LevelMode
    ensures FailsAsStated(c, s, rules)
  {
    LevelBudgetIs(c.level, 0);
    ClampIs(c.level, s.levels);
    LowerSpecial(c.level);
    hide Clamp, Supported, SomeOffered, SomeStandard, LevelBudget, Settle, MidRange;
  }

  lemma LowerSpecial(level: string)
    ensures level == "none" ==> ToLower(level) == "none"
    ensures level == "auto" ==> ToLower(level) == "auto"
  {
  }

  lemma BudgetErrors(c: Config, s: Support, rules: Rules)
    requires s.Proper() && c.mode == BudgetMode
    ensures FailsAsStated(c, s, rules)
  {
    DerivedLevel(c.budget, s.levels);
    if c.budget > 0 && LevelsOnly(s) {
      var level := Clamp(BudgetLevel(c.budget).value, s.levels);
      ClampIs(level, s.levels);
    }
    hide Clamp, Supported, SomeOffered, BudgetLevel, Settle, MidRange;
  }

  lemma SwitchErrors(c: Config, s: Support, rules: Rules)
    requires s.Proper() && c.mode != BudgetMode && c.mode != LevelMode
    ensures FailsAsStated(c, s, rules)
  {
    hide Clamp, Supported, Settle, MidRange;
  }

  /** The level a budget becomes on a model with levels alone. */
  lemma DerivedLevel(b: int, levels: seq<string>)
    ensures BudgetLevel(b).None? <==> b < -1
    ensures b >= -1 ==> var level := Clamp(BudgetLevel(b).value, levels);
      && (level == "none" <==> b == 0) && (level == "auto" <==> b == -1)
      && (b > 0 ==> (Supported(level, levels) <==> SomeOffered(levels)))
  {
    BudgetLevelIs(b);
    if b >= -1 {
      StandardLevelsAreNotSpecial(b, levels);
      if b > 0 {
        var i :| LeastCovering(b, i) && BudgetLevel(b) == Some(STANDARD[i]);
        assert IsStandard(STANDARD[i], i);
        ClampIs(STANDARD[i], levels);
      }
    }
    hide Clamp, Supported, BudgetLevel;
  }

  // ---------- results ----------

  /** No point of the model's range is nearer to b than r is. */
  ghost predicate NearestInRange(r: int, b: int, s: Support)
  {
    s.min <= r <= s.max && forall y :: s.min <= y <= s.max ==> Distance(b, r) <= Distance(b, y)
  }

  lemma ClampedBudget(b: int, s: Support)
    requires s.Proper()
    ensures b == -1 || (b != 0 && !s.HasRange()) ==> ClampBudget(b, s) == b
    ensures b != -1 && b != 0 && s.HasRange() ==> NearestInRange(ClampBudget(b, s), b, s)
    ensures b == 0 ==> ClampBudget(b, s) == if s.zeroAllowed then 0 else s.min
  {
  }

  /** The request is for a budget of b tokens, as a number or as a level of a model with a range alone. */
  ghost predicate AsksFor(c: Config, s: Support, b: int)
  {
    || (c.mode == BudgetMode && c.budget == b && b != 0 && !LevelsOnly(s))
    || (c.mode == LevelMode && RangeOnly(s) && CapitalAuto(c.level) && b == -1)
    || (c.mode == LevelMode && RangeOnly(s) && exists i :: IsStandard(c.level, i) && b == STANDARD_BUDGETS[i])
  }

  /** A budget that is asked for results in the nearest one of the model's range, and in itself where the model has no
      range; a raw -1 is passed through. */
  lemma BudgetResult(c: Config, s: Support, rules: Rules, b: int)
    requires s.Proper() && AsksFor(c, s, b) && Validate(c, Some(s), rules).Ok?
    ensures var r := Validate(c, Some(s), rules).config;
      && r.mode == BudgetMode && r.level == (if c.mode == LevelMode then "" else c.level)
      && (if s.HasRange() && b != -1 then NearestInRange(r.budget, b, s) else r.budget == b)
  {
    forall i ensures IsStandard(c.level, i) ==> LevelBudget(c.level) == Some(STANDARD_BUDGETS[i]) {
      LevelBudgetIs(c.level, i);
    }
    LevelBudgetIs(c.level, 0);
    AsksPlainly(c, s, b);
    ClampedBudget(b, s);
    hide Clamp, Supported, LevelBudget, BudgetLevel, MidRange, ClampBudget, NearestInRange, AsksFor;
  }

  lemma AsksPlainly(c: Config, s: Support, b: int)
    requires AsksFor(c, s, b)
    ensures b != 0
    ensures c.mode == LevelMode ==> c.level != "auto" && LevelBudget(c.level) == Some(b)
    ensures c.mode == BudgetMode ==> c.budget == b
  {
    StandardIsLower();
    if c.mode == LevelMode && !CapitalAuto(c.level) {
      var i :| IsStandard(c.level, i) && b == STANDARD_BUDGETS[i];
      LevelBudgetIs(c.level, i);
    } else {
      LevelBudgetIs(c.level, 0);
    }
  }

  /** The request is to think not at all. */
  predicate AsksNone(c: Config, s: Support)
  {
    || c.mode == NoneMode || (c.mode == BudgetMode && c.budget == 0)
    || (c.mode == LevelMode && (c.level == "none" || (RangeOnly(s) && ToLower(c.level) == "none")))
  }

  /** What is disabled stays disabled: with nothing else for claude, otherwise with the budget that was given fitted to
      the model, and with its first level where that budget is positive. */
  lemma NoneResult(c: Config, s: Support, rules: Rules)
    requires s.Proper() && AsksNone(c, s)
    ensures Validate(c, Some(s), rules).Ok?
    ensures var r, b, level := Validate(c, Some(s), rules).config, if c.mode == NoneMode then c.budget else 0,
      if c.mode == NoneMode then c.level else "";
      && r.mode == NoneMode && (rules.toClaude ==> r.budget == 0 && r.level == "")
      && (!rules.toClaude ==>
            && r.level == (if r.budget > 0 && s.HasLevels() then s.levels[0] else level)
            && (if b == 0 then r.budget == (if s.zeroAllowed then 0 else s.min)
                else if b != -1 && s.HasRange() then NearestInRange(r.budget, b, s) else r.budget == b))
  {
    LevelBudgetIs(c.level, 0);
    LowerSpecial(c.level);
    if c.mode == BudgetMode { DerivedLevel(c.budget, s.levels); }
    ClampedBudget(if c.mode == NoneMode then c.budget else 0, s);
    hide Clamp, Supported, LevelBudget, BudgetLevel, MidRange, ClampBudget, NearestInRange;
  }

  /** Asked to choose itself, a model does where it can; else it takes the middle of its range, a half rounded down,
      medium where it has levels alone, or nothing where the middle is nothing and it can be disabled. */
  lemma AutoResult(c: Config, s: Support, rules: Rules)
    requires s.Proper() && BecomesAuto(c, s)
    ensures Validate(c, Some(s), rules).Ok?
    ensures var r := Validate(c, Some(s), rules).config;
      if s.dynamicAllowed then r.mode == AutoMode && (c.mode != AutoMode || c.budget == -1 ==> r.budget == -1)
      else if LevelsOnly(s) then r == Config(LevelMode, 0, "medium")
      else if s.zeroAllowed && s.min + s.max < 2 then r.mode == NoneMode && r.budget == 0
      else r.mode == BudgetMode && s.min <= r.budget <= s.max && 0 <= (s.max - r.budget) - (r.budget - s.min) <= 1
  {
    if c.mode == BudgetMode { DerivedLevel(c.budget, s.levels); }
    hide Clamp, Supported, LevelBudget, BudgetLevel;
  }

  /** The level asked for: by name, or by a budget of a model with levels alone. */
  predicate AsksLevel(c: Config, s: Support, level: string)
  {
    || (c.mode == LevelMode && !RangeOnly(s) && c.level == level && level != "none" && level != "auto")
    || (c.mode == BudgetMode && LevelsOnly(s) && c.budget > 0 && BudgetLevel(c.budget) == Some(level))
  }

  /** A level that is asked for results in itself where it is supported, else in the nearest supported one. */
  lemma LevelResult(c: Config, s: Support, rules: Rules, level: string)
    requires s.Proper() && AsksLevel(c, s, level) && Validate(c, Some(s), rules).Ok?
    ensures var r := Validate(c, Some(s), rules).config;
      && r.mode == LevelMode
      && (if !s.HasLevels() || Supported(level, s.levels) then r.level == level
          else NearestSupported(r.level, level, s.levels))
  {
    ClampIs(level, s.levels);
    if c.mode == BudgetMode {
      DerivedLevel(c.budget, s.levels);
      BudgetLevelIs(c.budget);
      var i :| LeastCovering(c.budget, i) && BudgetLevel(c.budget) == Some(STANDARD[i]);
      assert IsStandard(level, i);
      ClampIs(Clamp(level, s.levels), s.levels);
    }
    hide Clamp, Supported, SomeOffered, SomeStandard, NearestSupported, LevelBudget, BudgetLevel, MidRange;
  }

  /** Every request that does not fail is one of these. */
  lemma EveryRequest(c: Config, s: Support, rules: Rules)
    requires s.Proper() && Validate(c, Some(s), rules).Ok?
    ensures || (exists b :: AsksFor(c, s, b)) || AsksNone(c, s) || BecomesAuto(c, s)
            || exists level :: AsksLevel(c, s, level)
  {
    ErrorsExactly(c, Some(s), rules);
    hide Validate;
    if c.mode == BudgetMode {
      if c.budget != 0 && !LevelsOnly(s) { assert AsksFor(c, s, c.budget); }
      if c.budget > 0 && LevelsOnly(s) { assert AsksLevel(c, s, BudgetLevel(c.budget).value); }
    } else if c.mode == LevelMode {
      if !RangeOnly(s) && c.level != "none" && c.level != "auto" { assert AsksLevel(c, s, c.level); }
      if RangeOnly(s) && SomeStandard(c.level) {
        var i :| IsStandard(c.level, i);
        assert AsksFor(c, s, STANDARD_BUDGETS[i]);
      }
      if RangeOnly(s) && CapitalAuto(c.level) { assert AsksFor(c, s, -1); }
    }
  }

  /** Formats are compared by family, ignoring case and outer space: levels are clamped between families, budgets judged
      strictly within one unless they come from a suffix or an unknown format. */
  lemma RulesMean(fromFormat: string, toFormat: string, fromSuffix: bool)
    ensures var rules, from, to :=
        RulesFor(fromFormat, toFormat, fromSuffix), ToLower(TrimSpace(fromFormat)), ToLower(TrimSpace(toFormat));
      var google, openai := {"gemini", "gemini-cli", "antigravity"}, {"openai", "openai-response", "codex"};
      && (rules.clampLevels <==> from != to && !(from in google && to in google) && !(from in openai && to in openai))
      && (rules.strictBudget <==> !rules.clampLevels && !fromSuffix && TrimSpace(fromFormat) != "")
      && (rules.toClaude <==> to == "claude")
  {
    assert |ToLower(TrimSpace(fromFormat))| == |TrimSpace(fromFormat)|;
    hide ToLower, TrimSpace;
  }
}
