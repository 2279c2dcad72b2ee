/** Which texts read as an integer: white space around, a sign, digits with underscores between. */
module IntegerTexts {
  import opened EventLine
  import opened Tables

  predicate AllBlank(s: string) {
    forall i :: 0 <= i < |s| ==> s[i] == ' ' || '\t' <= s[i] <= '\r'
  }

  predicate IsRun(s: string) {
    s != "" && forall k :: 0 <= k < |s| ==> '0' <= s[k] <= '9'
  }

  /** Runs of digits, none of them empty. */
  predicate DigitRuns(parts: seq<string>) {
    parts != [] && forall i :: 0 <= i < |parts| ==> IsRun(parts[i])
  }

  /** No underscore at either end, and no two in a row. */
  predicate Spread(s: string) {
    && s != "" && s[0] != '_' && s[|s| - 1] != '_'
    && forall i :: 0 < i < |s| ==> s[i - 1] != '_' || s[i] != '_'
  }

  predicate AllDigitsOrLines(s: string) {
    forall i :: 0 <= i < |s| ==> '0' <= s[i] <= '9' || s[i] == '_'
  }

  lemma FrontIsSpread(front: string, last: string)
    requires Spread(front + "_" + last)
    ensures Spread(front) && last != ""
  {
    var s := front + "_" + last;
    assert s[|front|] == '_';
    assert forall i :: 0 <= i < |front| ==> s[i] == front[i];
    if front != "" { assert s[|front| - 1] != '_'; }
  }

  lemma SpreadOn(front: string, last: string)
    requires Spread(front) && IsRun(last)
    ensures Spread(front + "_" + last)
  {
    var s := front + "_" + last;
    assert forall i :: 0 <= i < |front| ==> s[i] == front[i];
    assert forall i :: 0 <= i < |last| ==> s[|front| + 1 + i] == last[i];
  }

  lemma JoinedLast(parts: seq<string>)
    requires |parts| > 1
    ensures var n := |parts| - 1; Join(parts, '_') == Join(parts[..n], '_') + "_" + parts[n]
  {
  }

  lemma {:induction false} PartsOfSpread(parts: seq<string>)
    requires parts != [] && Spread(Join(parts, '_'))
    ensures forall i :: 0 <= i < |parts| ==> parts[i] != ""
  {
    if |parts| > 1 {
      var n := |parts| - 1;
      JoinedLast(parts);
      hide Spread, Join;
      FrontIsSpread(Join(parts[..n], '_'), parts[n]);
      PartsOfSpread(parts[..n]);
    }
  }

  lemma {:induction false} RunsAreSpread(parts: seq<string>)
    requires DigitRuns(parts)
    ensures Spread(Join(parts, '_'))
  {
    if |parts| > 1 {
      var n := |parts| - 1;
      RunsAreSpread(parts[..n]);
      JoinedLast(parts);
      hide Spread, Join, IsRun;
      SpreadOn(Join(parts[..n], '_'), parts[n]);
    } else {
      assert IsRun(parts[0]);
    }
  }

  lemma GroupsAre(s: string)
    ensures DigitGroups(s) <==> Spread(s) && AllDigitsOrLines(s)
  {
  }

  lemma GroupsExactlyWhen(s: string)
    ensures DigitGroups(s) <==> exists parts :: DigitRuns(parts) && s == Join(parts, '_')
  {
    GroupsAre(s);
    hide DigitGroups, Spread, AllDigitsOrLines, Join, IsRun;
    if DigitGroups(s) { RunsOfGroups(s); }
    if parts :| DigitRuns(parts) && s == Join(parts, '_') {
      RunsAreSpread(parts);
      JoinOnlyDigits(parts);
    }
  }

  lemma RunsOfGroups(s: string)
    requires Spread(s) && AllDigitsOrLines(s)
    ensures DigitRuns(Split(s, '_')) && s == Join(Split(s, '_'), '_')
  {
    hide Split, Join, Spread;
    var parts := Split(s, '_');
    JoinSplit(s, '_');
    PartsOfSpread(parts);
    forall i, k | 0 <= i < |parts| && 0 <= k < |parts[i]| ensures '0' <= parts[i][k] <= '9' {
      PartInside(s, '_', i, k);
    }
  }

  lemma JoinOnlyDigits(parts: seq<string>)
    requires DigitRuns(parts)
    ensures AllDigitsOrLines(Join(parts, '_'))
  {
    forall i, k | 0 <= i < |parts| && 0 <= k < |parts[i]| ensures '0' <= parts[i][k] <= '9' {
      assert IsRun(parts[i]);
    }
    JoinOnly(parts, '_', c => '0' <= c <= '9' || c == '_');
  }

  lemma {:induction false} PartInside(s: string, sep: char, i: nat, k: nat)
    requires i < |Split(s, sep)| && k < |Split(s, sep)[i]|
    ensures Split(s, sep)[i][k] in s && Split(s, sep)[i][k] != sep
  {
    if s != "" {
      var was := Split(s[..|s| - 1], sep);
      SplitLast(s, sep);
      if i < |was| && k < |was[i]| {
        PartInside(s[..|s| - 1], sep, i, k);
        assert Split(s, sep)[i][k] == was[i][k];
      }
    }
  }

  // ---------------------------------------------------------------- white space around

  lemma {:induction false} StripCuts(s: string) returns (pre: string, post: string)
    ensures AllBlank(pre) && AllBlank(post) && s == pre + Strip(s) + post
    decreases |s|
  {
    pre, post := "", "";
    if s == "" {
    } else if Blank(s[0]) {
      pre, post := StripCuts(s[1..]);
      Prepended(s, pre, Strip(s), post);
      pre := [s[0]] + pre;
    } else if Blank(s[|s| - 1]) {
      pre, post := StripCuts(s[..|s| - 1]);
      Appended(s, pre, Strip(s), post);
      post := post + [s[|s| - 1]];
    }
  }

  lemma Prepended(s: string, pre: string, core: string, post: string)
    requires s != "" && s[1..] == pre + core + post
    ensures s == ([s[0]] + pre) + core + post
  {
  }

  lemma Appended(s: string, pre: string, core: string, post: string)
    requires s != "" && s[..|s| - 1] == pre + core + post
    ensures s == pre + core + (post + [s[|s| - 1]])
  {
  }

  lemma {:induction false} CutStrips(pre: string, core: string, post: string)
    requires AllBlank(pre) && AllBlank(post) && core != "" && !Blank(core[0]) && !Blank(core[|core| - 1])
    ensures Strip(pre + core + post) == core
    decreases |pre| + |post|
  {
    var s := pre + core + post;
    if pre != "" {
      assert s[0] == pre[0] && s[1..] == pre[1..] + core + post;
      CutStrips(pre[1..], core, post);
    } else if post != "" {
      assert s[0] == core[0] && s[|s| - 1] == post[|post| - 1] && s[..|s| - 1] == pre + core + post[..|post| - 1];
      CutStrips(pre, core, post[..|post| - 1]);
    } else {
      assert s == core;
    }
  }

  /** A sign or none, and runs of digits with single underscores between them. */
  predicate Numeral(t: string, sign: string, parts: seq<string>) {
    sign in {"", "+", "-"} && DigitRuns(parts) && t == sign + Join(parts, '_')
  }

  lemma NumeralExactlyWhen(t: string)
    ensures DigitGroups(if t != "" && (t[0] == '+' || t[0] == '-') then t[1..] else t)
       <==> exists sign, parts :: Numeral(t, sign, parts)
  {
    var sign := if t != "" && (t[0] == '+' || t[0] == '-') then [t[0]] else "";
    var rest := t[|sign|..];
    assert t == sign + rest;
    GroupsExactlyWhen(rest);
    hide DigitGroups, Join, DigitRuns;
    if parts :| DigitRuns(parts) && rest == Join(parts, '_') {
      assert Numeral(t, sign, parts);
    }
    if other, parts :| Numeral(t, other, parts) {
      NumeralEnds(t, other, parts);
      assert other == sign;
      assert (sign + Join(parts, '_'))[|sign|..] == Join(parts, '_');
    }
  }

  lemma NumeralEnds(t: string, sign: string, parts: seq<string>)
    requires Numeral(t, sign, parts)
    ensures t != "" && !Blank(t[0]) && !Blank(t[|t| - 1])
    ensures sign == if t[0] == '+' || t[0] == '-' then [t[0]] else ""
  {
    RunsAreSpread(parts);
    JoinOnlyDigits(parts);
    hide Join, DigitRuns;
    var groups := Join(parts, '_');
    assert t[|sign|] == groups[0] && t[|t| - 1] == groups[|groups| - 1];
  }

  /** What `int` takes, white space around it or not. */
  lemma IntegerExactlyWhen(s: string)
    ensures IntegerText(s) <==> exists pre, t, post, sign, parts ::
      AllBlank(pre) && AllBlank(post) && s == pre + t + post && Numeral(t, sign, parts)
  {
    hide DigitGroups, Strip, Numeral, AllBlank;
    NumeralExactlyWhen(Strip(s));
    if IntegerText(s) {
      var pre, post := StripCuts(s);
      var sign, parts :| Numeral(Strip(s), sign, parts);
    }
    if pre, t, post, sign, parts :| AllBlank(pre) && AllBlank(post) && s == pre + t + post && Numeral(t, sign, parts) {
      NumeralEnds(t, sign, parts);
      CutStrips(pre, t, post);
    }
  }

  /** The mapping of an app cannot be compared with an observation exactly when one of its own rows
      has a text for a depot that reads as no integer. */
  lemma UnreadableExactlyWhen(db: Db, appid: nat)
    ensures MappingUnreadable(db, appid) <==> exists depot: StoredId ::
      && Row(depot, Number(appid)) in db.rows && depot.Text?
      && !exists pre, t, post, sign, parts :: AllBlank(pre) && AllBlank(post) && depot.s == pre + t + post && Numeral(t, sign, parts)
  {
    hide IntegerText, Numeral, AllBlank;
    if r :| r in db.rows && r.owner == Number(appid) && r.depot.Text? && !IntegerText(r.depot.s) {
      IntegerExactlyWhen(r.depot.s);
      assert Row(r.depot, Number(appid)) in db.rows;
    }
    if depot: StoredId :|
      && Row(depot, Number(appid)) in db.rows && depot.Text?
      && !exists pre, t, post, sign, parts :: AllBlank(pre) && AllBlank(post) && depot.s == pre + t + post && Numeral(t, sign, parts)
    {
      IntegerExactlyWhen(depot.s);
      assert Row(depot, Number(appid)).depot == depot;
    }
  }
}
