/** What a line means, the other way round (mysh.c): lines are exactly what comes from writing
    commands out, words apart by blanks and commands apart by '|'. */
module MyshText {
  import opened Mysh

  // ---- commands ----

  function Joined(ts: seq<seq<char>>): seq<char>
    requires ts != []
  {
    var n := |ts| - 1;
    if n == 0 then ts[0] else Joined(ts[..n]) + ['|'] + ts[n]
  }

  predicate NoBars(ts: seq<seq<char>>) {
    forall i :: 0 <= i < |ts| ==> '|' !in ts[i]
  }

  lemma StagesAdd(s: seq<char>, c: char)
    ensures Stages(s + [c]) ==
            if c == '|' then Stages(s) + [[]] else Longer(Stages(s), [c])
  {
    assert (s + [c])[..|s|] == s;
  }

  /** The last sequence made longer. */
  function Longer(r: seq<seq<char>>, t: seq<char>): seq<seq<char>>
    requires r != []
  {
    r[..|r| - 1] + [r[|r| - 1] + t]
  }

  lemma LongerTwice(r: seq<seq<char>>, t: seq<char>, u: seq<char>)
    requires r != []
    ensures Longer(Longer(r, t), u) == Longer(r, t + u) && Longer(r, []) == r
  {
    assert r[|r| - 1] + (t + u) == r[|r| - 1] + t + u && r[|r| - 1] + [] == r[|r| - 1];
  }

  lemma LongerEmpty(r: seq<seq<char>>, t: seq<char>)
    ensures Longer(r + [[]], t) == r + [t]
  {
    assert [] + t == t;
  }

  lemma {:induction false} StagesMore(s: seq<char>, t: seq<char>)
    requires '|' !in t
    ensures Stages(s + t) == Longer(Stages(s), t)
    decreases |t|
  {
    hide Stages, Longer;
    LongerTwice(Stages(s), [], []);
    if t == [] {
      assert s + t == s;
    } else {
      var n := |t| - 1;
      StagesMore(s, t[..n]);
      StagesAdd(s + t[..n], t[n]);
      LongerTwice(Stages(s), t[..n], [t[n]]);
      assert s + t == s + t[..n] + [t[n]] && t[..n] + [t[n]] == t;
    }
  }

  /** Joining what was cut gives the line back, and no stage holds a '|'. */
  lemma {:induction false} StagesJoin(s: seq<char>)
    ensures Joined(Stages(s)) == s && NoBars(Stages(s))
  {
    if s != [] {
      var n := |s| - 1;
      StagesJoin(s[..n]);
      var r, c := Stages(s[..n]), s[n];
      assert s == s[..n] + [c];
      if c == '|' {
        assert (r + [[]])[..|r|] == r;
      } else {
        JoinedMore(r, c);
      }
    }
  }

  lemma JoinedMore(r: seq<seq<char>>, c: char)
    requires r != []
    ensures Joined(Longer(r, [c])) == Joined(r) + [c]
  {
    var m := |r| - 1;
    assert Longer(r, [c])[..m] == r[..m];
  }

  /** Cutting what was joined gives the stages back. */
  lemma {:induction false} JoinStages(ts: seq<seq<char>>)
    requires ts != [] && NoBars(ts)
    ensures Stages(Joined(ts)) == ts
  {
    var n := |ts| - 1;
    if n == 0 {
      StagesMore([], ts[0]);
      assert [] + ts[0] == ts[0];
    } else {
      JoinStages(ts[..n]);
      hide Stages;
      OneStageMore(Joined(ts[..n]), ts[..n], ts[n]);
      assert ts[..n] + [ts[n]] == ts;
    }
  }

  lemma OneStageMore(s: seq<char>, r: seq<seq<char>>, t: seq<char>)
    requires Stages(s) == r && '|' !in t
    ensures Stages(s + ['|'] + t) == r + [t]
  {
    hide Stages, Longer;
    StagesAdd(s, '|');
    StagesMore(s + ['|'], t);
    LongerEmpty(r, t);
  }

  // ---- words ----

  predicate WordOk(w: seq<char>) {
    w != [] && forall i :: 0 <= i < |w| ==> !IsSpace(w[i])
  }

  predicate Blank(g: seq<char>) {
    forall i :: 0 <= i < |g| ==> IsSpace(g[i])
  }

  /** Blanks around the words, and at least one between two. */
  predicate GapsOk(gaps: seq<seq<char>>) {
    && (forall i :: 0 <= i < |gaps| ==> Blank(gaps[i]))
    && (forall i :: 0 < i < |gaps| - 1 ==> gaps[i] != [])
  }

  predicate WordsOk(ws: seq<seq<char>>) {
    forall i :: 0 <= i < |ws| ==> WordOk(ws[i])
  }

  function Spaced(ws: seq<seq<char>>, gaps: seq<seq<char>>): seq<char>
    requires |gaps| == |ws| + 1
  {
    var n := |ws|;
    if n == 0 then gaps[0] else Spaced(ws[..n - 1], gaps[..n]) + ws[n - 1] + gaps[n]
  }

  lemma {:induction false} BlankAdds(t: seq<char>, g: seq<char>)
    requires Blank(g)
    ensures Words(t + g) == Words(t)
    decreases |g|
  {
    if g == [] {
      assert t + g == t;
    } else {
      var n := |g| - 1;
      BlankAdds(t, g[..n]);
      assert t + g == t + g[..n] + [g[n]];
      WordsSnoc(t + g[..n], g[n]);
    }
  }

  lemma {:induction false} WordAdds(t: seq<char>, w: seq<char>)
    requires WordOk(w) && (t == [] || IsSpace(t[|t| - 1]))
    ensures Words(t + w) == Words(t) + [w]
    decreases |w|
  {
    hide Words;
    var n := |w| - 1;
    assert t + w == t + w[..n] + [w[n]];
    WordsSnoc(t + w[..n], w[n]);
    if n == 0 {
      assert t + w[..n] == t && w == [w[0]];
    } else {
      WordAdds(t, w[..n]);
      assert (t + w[..n])[|t| + n - 1] == w[n - 1];
      assert w == w[..n] + [w[n]];
    }
  }

  /** Reading words that were written apart gives the words. */
  lemma {:induction false} SpacedWords(ws: seq<seq<char>>, gaps: seq<seq<char>>)
    requires |gaps| == |ws| + 1 && WordsOk(ws) && GapsOk(gaps)
    ensures Words(Spaced(ws, gaps)) == ws
  {
    var n := |ws|;
    if n == 0 {
      BlankAdds([], gaps[0]);
      assert [] + gaps[0] == gaps[0];
    } else {
      SpacedWords(ws[..n - 1], gaps[..n]);
      var t := Spaced(ws[..n - 1], gaps[..n]);
      SpacedEnds(ws[..n - 1], gaps[..n]);
      WordAdds(t, ws[n - 1]);
      BlankAdds(t + ws[n - 1], gaps[n]);
      assert ws == ws[..n - 1] + [ws[n - 1]];
    }
  }

  lemma SpacedEnds(ws: seq<seq<char>>, gaps: seq<seq<char>>)
    requires |gaps| == |ws| + 1 && WordsOk(ws) && (forall i :: 0 <= i < |gaps| ==> Blank(gaps[i]))
    ensures var s, g := Spaced(ws, gaps), gaps[|ws|];
            s == [] || IsSpace(s[|s| - 1]) <==> ws == [] || g != []
  {
    var n := |ws|;
    var s, g := Spaced(ws, gaps), gaps[n];
    if g != [] {
      assert s[|s| - 1] == g[|g| - 1];
    } else if n > 0 {
      var w := ws[n - 1];
      assert s[|s| - 1] == w[|w| - 1];
    }
  }

  /** t is the words ws with these gaps. */
  ghost predicate Splits(t: seq<char>, ws: seq<seq<char>>, g: seq<seq<char>>) {
    |g| == |ws| + 1 && WordsOk(ws) && GapsOk(g) && Spaced(ws, g) == t
  }

  lemma MoreBlank(t: seq<char>, ws: seq<seq<char>>, g: seq<seq<char>>, c: char)
    requires Splits(t, ws, g) && IsSpace(c)
    ensures Splits(t + [c], ws, Longer(g, [c]))
  {
    assert Longer(g, [c])[..|ws|] == g[..|ws|];
  }

  lemma MoreWord(t: seq<char>, ws: seq<seq<char>>, g: seq<seq<char>>, c: char)
    requires Splits(t, ws, g) && !IsSpace(c) && (ws == [] || g[|ws|] != [])
    ensures Splits(t + [c], ws + [[c]], g + [[]])
  {
    SpacedNew(ws, g, c);
    hide Spaced;
    assert WordOk([c]) && Blank([]);
  }

  lemma SpacedNew(ws: seq<seq<char>>, g: seq<seq<char>>, c: char)
    requires |g| == |ws| + 1
    ensures Spaced(ws + [[c]], g + [[]]) == Spaced(ws, g) + [c]
  {
    var k := |ws|;
    assert (g + [[]])[..k + 1] == g && (ws + [[c]])[..k] == ws;
  }

  lemma LongerWord(t: seq<char>, ws: seq<seq<char>>, g: seq<seq<char>>, c: char)
    requires Splits(t, ws, g) && !IsSpace(c) && ws != [] && g[|ws|] == []
    ensures Splits(t + [c], Longer(ws, [c]), g)
  {
    var k := |ws| - 1;
    assert Longer(ws, [c])[..k] == ws[..k];
  }

  lemma SplitEnds(t: seq<char>, ws: seq<seq<char>>, g: seq<seq<char>>)
    requires Splits(t, ws, g)
    ensures |g| == |ws| + 1 && (t == [] || IsSpace(t[|t| - 1]) <==> ws == [] || g[|ws|] != [])
  {
    SpacedEnds(ws, g);
  }

  /** Every line is its words written apart. */
  lemma {:induction false} WordsSpaced(s: seq<char>) returns (gaps: seq<seq<char>>)
    ensures Splits(s, Words(s), gaps)
  {
    if s == [] {
      gaps := [[]];
    } else {
      hide Words, Spaced, GapsOk;
      var n := |s| - 1;
      var g := WordsSpaced(s[..n]);
      var ws, c := Words(s[..n]), s[n];
      SplitEnds(s[..n], ws, g);
      assert s == s[..n] + [c];
      WordsSnoc(s[..n], c);
      hide Splits;
      if IsSpace(c) {
        gaps := Longer(g, [c]);
        MoreBlank(s[..n], ws, g, c);
      } else if s[..n] == [] || IsSpace(s[n - 1]) {
        gaps := g + [[]];
        MoreWord(s[..n], ws, g, c);
      } else {
        gaps := g;
        LongerWord(s[..n], ws, g, c);
      }
    }
  }

  // ---- pipelines ----

  lemma {:induction false} SpacedBars(ws: seq<seq<char>>, gaps: seq<seq<char>>)
    requires |gaps| == |ws| + 1 && forall i :: 0 <= i < |gaps| ==> Blank(gaps[i])
    ensures '|' !in Spaced(ws, gaps) <==> NoBars(ws)
  {
    var n := |ws|;
    assert forall i :: 0 <= i <= n ==> '|' !in gaps[i];
    if n > 0 {
      SpacedBars(ws[..n - 1], gaps[..n]);
      assert ws == ws[..n - 1] + [ws[n - 1]];
    }
  }

  /** The stages are these commands, each written out with blanks. */
  ghost predicate Writes(ts: seq<seq<char>>, cmds: seq<seq<seq<char>>>) {
    && |ts| == |cmds| > 0
    && forall i :: 0 <= i < |ts| ==> WordsOk(cmds[i]) && NoBars(cmds[i]) && WritesOne(ts[i], cmds[i])
  }

  ghost predicate WritesOne(t: seq<char>, ws: seq<seq<char>>) {
    exists gaps: seq<seq<char>> :: |gaps| == |ws| + 1 && GapsOk(gaps) && t == Spaced(ws, gaps)
  }

  /** Whatever commands are written out, with whatever blanks, they are read back. */
  lemma ReadsBack(ts: seq<seq<char>>, cmds: seq<seq<seq<char>>>)
    requires Writes(ts, cmds)
    ensures Stages(Joined(ts)) == ts && forall i :: 0 <= i < |ts| ==> Words(ts[i]) == cmds[i]
  {
    forall i | 0 <= i < |ts| ensures '|' !in ts[i] && Words(ts[i]) == cmds[i] {
      var gaps :| |gaps| == |cmds[i]| + 1 && GapsOk(gaps) && ts[i] == Spaced(cmds[i], gaps);
      SpacedWords(cmds[i], gaps);
      SpacedBars(cmds[i], gaps);
    }
    JoinStages(ts);
  }

  /** Every line is the commands it is read as, written out. */
  lemma WritesBack(s: seq<char>, cmds: seq<seq<seq<char>>>)
    requires |cmds| == |Stages(s)| && forall i :: 0 <= i < |cmds| ==> cmds[i] == Words(Stages(s)[i])
    ensures Writes(Stages(s), cmds) && Joined(Stages(s)) == s
  {
    StagesJoin(s);
    var ts := Stages(s);
    forall i | 0 <= i < |ts| ensures WordsOk(cmds[i]) && NoBars(cmds[i]) && WritesOne(ts[i], cmds[i]) {
      var gaps := WordsSpaced(ts[i]);
      SpacedBars(cmds[i], gaps);
    }
  }

  predicate InLimits(cmds: seq<seq<seq<char>>>) {
    1 <= |cmds| <= 8 && forall i :: 0 <= i < |cmds| ==> 1 <= |cmds[i]| <= 15
  }

  /** What the parser accepts: exactly the lines that write out 1 to 8 commands of 1 to 15 words. */
  lemma PipelineIff(s: seq<char>)
    ensures IsPipeline(s) <==>
              exists ts: seq<seq<char>>, cmds :: Writes(ts, cmds) && InLimits(cmds) && s == Joined(ts)
  {
    hide Stages, Words, Joined;
    if IsPipeline(s) {
      var ts := Stages(s);
      var cmds := seq(|ts|, i requires 0 <= i < |ts| => Words(ts[i]));
      WritesBack(s, cmds);
      forall i | 0 <= i < |cmds| ensures 1 <= |cmds[i]| <= 15 {
        assert StageOk(ts[i]);
      }
      assert InLimits(cmds);
    }
    if ts: seq<seq<char>>, cmds :| Writes(ts, cmds) && InLimits(cmds) && s == Joined(ts) {
      ReadsBack(ts, cmds);
    }
  }

  /** A line counts as blank exactly when it holds nothing but blanks. */
  lemma BlankIff(s: seq<char>)
    ensures IsBlank(s) <==> Blank(s)
  {
    hide Stages, Words;
    if IsBlank(s) {
      StagesJoin(s);
      var gaps := WordsSpaced(s);
    }
    if Blank(s) {
      assert GapsOk([s]) && s == Spaced([], [s]);
      assert Writes([s], [[]]);
      ReadsBack([s], [[]]);
    }
  }
}
