/** The pipeline parser of mysh (mysh.c): words are cut out of the line in place. */
module Mysh {
  const MAX_COMMANDS: nat := 8
  const MAX_ARGS: nat := 16
  const NUL: char := '\0'
  /** A null argv pointer. */
  const NULL: int := -1

  predicate IsSpace(c: char) {
    c == ' ' || c == '\t' || c == '\r' || c == '\n'
  }

  // ---- what a line means ----

  /** The line cut at every '|'. */
  function Stages(s: seq<char>): (r: seq<seq<char>>)
    ensures |r| > 0
  {
    if s == [] then [[]] else
    var r, c := Stages(s[..|s| - 1]), s[|s| - 1];
    if c == '|' then r + [[]] else r[..|r| - 1] + [r[|r| - 1] + [c]]
  }

  /** The maximal runs of non-space characters. */
  function Words(s: seq<char>): seq<seq<char>> {
    if s == [] then [] else
    var w, c := Words(s[..|s| - 1]), s[|s| - 1];
    if IsSpace(c) then w
    else if |s| == 1 || IsSpace(s[|s| - 2]) || w == [] then w + [[c]]
    else w[..|w| - 1] + [w[|w| - 1] + [c]]
  }

  predicate StageOk(t: seq<char>) {
    1 <= |Words(t)| < MAX_ARGS
  }

  /** At most MAX_COMMANDS stages of 1 to MAX_ARGS - 1 words. */
  predicate IsPipeline(s: seq<char>) {
    |Stages(s)| <= MAX_COMMANDS && forall i :: 0 <= i < |Stages(s)| ==> StageOk(Stages(s)[i])
  }

  predicate IsBlank(s: seq<char>) {
    |Stages(s)| == 1 && Words(Stages(s)[0]) == []
  }

  // ---- reading on only extends the last stage ----

  lemma StagesSnoc(s: seq<char>, n: nat)
    requires n < |s|
    ensures Stages(s[..n + 1]) ==
            (var r := Stages(s[..n]); if s[n] == '|' then r + [[]] else r[..|r| - 1] + [r[|r| - 1] + [s[n]]])
  {
    assert s[..n + 1][..n] == s[..n];
  }

  lemma WordsSnoc(t: seq<char>, c: char)
    ensures Words(t + [c]) ==
            (var w := Words(t); if IsSpace(c) then w
             else if t == [] || IsSpace(t[|t| - 1]) || w == [] then w + [[c]] else w[..|w| - 1] + [w[|w| - 1] + [c]])
  {
    assert (t + [c])[..|t|] == t;
  }

  lemma {:induction false} WordsGrow(t: seq<char>, u: seq<char>)
    ensures |Words(t)| <= |Words(t + u)|
  {
    if u == [] {
      assert t + u == t;
    } else {
      WordsGrow(t, u[..|u| - 1]);
      WordsSnoc(t + u[..|u| - 1], u[|u| - 1]);
      assert t + u == (t + u[..|u| - 1]) + [u[|u| - 1]];
    }
  }

  /** All stages of a prefix but the last are stages of the line; the last is the beginning of one. */
  lemma {:induction false} StagesExtend(s: seq<char>, n: nat, m: nat)
    requires n <= m <= |s|
    ensures var a, b := Stages(s[..n]), Stages(s[..m]);
            && |a| <= |b| && (forall i :: 0 <= i < |a| - 1 ==> b[i] == a[i]) && a[|a| - 1] <= b[|a| - 1]
    decreases m
  {
    hide Stages;
    if n < m {
      StagesExtend(s, n, m - 1);
      StagesSnoc(s, m - 1);
    }
  }

  /** A complete stage that is out of range, a ninth stage, or a sixteenth word in any stage
      makes the line no pipeline, and not blank either if there is a second stage or a word. */
  lemma BadPrefix(s: seq<char>, n: nat, c: nat)
    requires n <= |s| && c < |Stages(s[..n])|
    requires var a := Stages(s[..n]);
             |a| > MAX_COMMANDS || |Words(a[c])| >= MAX_ARGS || (c < |a| - 1 && Words(a[c]) == [])
    ensures !IsPipeline(s) && !IsBlank(s)
  {
    assert s[..|s|] == s;
    StagesExtend(s, n, |s|);
    var a, b := Stages(s[..n]), Stages(s);
    assert c < |a| - 1 ==> b[c] == a[c];
    var u := b[c][|a[c]|..];
    assert b[c] == a[c] + u;
    WordsGrow(a[c], u);
    assert !StageOk(b[c]) || |b| > MAX_COMMANDS;
  }

  // ---- the buffer ----

  /** q points at the NUL-terminated string w. */
  predicate CString(buf: seq<char>, q: int, w: seq<char>) {
    && 0 <= q && q + |w| < |buf| && buf[q..q + |w|] == w && buf[q + |w|] == NUL && NUL !in w
  }

  /** The row of argv pointers denotes the words, all before position p. */
  predicate RowOk(buf: seq<char>, row: seq<int>, words: seq<seq<char>>, p: nat) {
    && |words| <= |row|
    && forall j :: 0 <= j < |words| ==> CString(buf, row[j], words[j]) && row[j] + |words[j]| < p
  }

  lemma RowKept(buf: seq<char>, buf': seq<char>, row: seq<int>, words: seq<seq<char>>, p: nat, p': nat)
    requires RowOk(buf, row, words, p) && |buf'| == |buf| && p <= p' && p <= |buf|
    requires forall k :: 0 <= k < p ==> buf'[k] == buf[k]
    ensures RowOk(buf', row, words, p')
  {
    forall j | 0 <= j < |words| ensures CString(buf', row[j], words[j]) {
      var q, n := row[j], |words[j]|;
      assert CString(buf, q, words[j]);
      assert buf'[q..q + n] == buf[q..q + n];
    }
  }

  // ---- the parser ----

  /** How far the parser has come: position p of the line s, command c with argc words so far. */
  ghost predicate Progress(s: seq<char>, buf: seq<char>, cmds: seq<seq<int>>, p: nat, c: nat, argc: nat) {
    && p <= |s| < |buf| && c < MAX_COMMANDS && argc < MAX_ARGS
    && |cmds| == MAX_COMMANDS && (forall i :: 0 <= i < MAX_COMMANDS ==> |cmds[i]| == MAX_ARGS)
    && (forall k :: p <= k < |s| ==> buf[k] == s[k]) && buf[|s|] == NUL
    && var st := Stages(s[..p]);
       && |st| == c + 1 && |Words(st[c])| == argc
       && (p < |s| ==> st[c] == [] || IsSpace(st[c][|st[c]| - 1]))
       && (forall i :: 0 <= i < c ==>
             StageOk(st[i]) && RowOk(buf, cmds[i], Words(st[i]), p) && cmds[i][|Words(st[i])|] == NULL)
       && RowOk(buf, cmds[c], Words(st[c]), p + 1)
       && (forall i, j :: (c < i < MAX_COMMANDS && 0 <= j < MAX_ARGS) || (i == c && argc <= j < MAX_ARGS) ==>
             cmds[i][j] == NULL)
  }

  /** Skipping a space. */
  lemma SkipSpace(s: seq<char>, buf: seq<char>, cmds: seq<seq<int>>, p: nat, c: nat, argc: nat)
    requires Progress(s, buf, cmds, p, c, argc) && p < |s| && IsSpace(s[p])
    ensures Progress(s, buf, cmds, p + 1, c, argc)
  {
    hide Stages, Words, RowOk;
    var st := Stages(s[..p]);
    StagesSnoc(s, p);
    WordsSnoc(st[c], s[p]);
    forall i | 0 <= i < c ensures RowOk(buf, cmds[i], Words(st[i]), p + 1) {
      RowKept(buf, buf, cmds[i], Words(st[i]), p, p + 1);
    }
    RowKept(buf, buf, cmds[c], Words(st[c]), p + 1, p + 2);
  }

  /** A '|' after whitespace completes the current command. */
  lemma NextCommand(s: seq<char>, buf: seq<char>, cmds: seq<seq<int>>, p: nat, c: nat, argc: nat)
    requires Progress(s, buf, cmds, p, c, argc) && p < |s| && s[p] == '|' && argc > 0
    ensures Stages(s[..p + 1]) == Stages(s[..p]) + [[]] && |Stages(s[..p + 1])| == c + 2
    ensures c + 1 < MAX_COMMANDS ==> Progress(s, buf, cmds, p + 1, c + 1, 0)
  {
    hide Stages, Words;
    var st := Stages(s[..p]);
    StagesSnoc(s, p);
    NoWords();
    forall i | 0 <= i < c ensures RowOk(buf, cmds[i], Words(st[i]), p + 1) {
      RowKept(buf, buf, cmds[i], Words(st[i]), p, p + 1);
    }
  }

  lemma NoWords()
    ensures Words([]) == []
  {
  }

  /** While scanning a word that began at q, it is the last word of the current stage. */
  ghost predicate InWord(s: seq<char>, st0: seq<seq<char>>, c: nat, q: nat, p: nat) {
    && q < p <= |s| && |st0| == c + 1
    && var st := Stages(s[..p]);
       && |st| == c + 1 && st[..c] == st0[..c]
       && Words(st[c]) == Words(st0[c]) + [s[q..p]] && st[c] != [] && !IsSpace(st[c][|st[c]| - 1])
  }

  lemma WordBegins(s: seq<char>, buf: seq<char>, cmds: seq<seq<int>>, p: nat, c: nat, argc: nat)
    requires Progress(s, buf, cmds, p, c, argc) && p < |s| && !IsSpace(s[p]) && s[p] != '|'
    ensures InWord(s, Stages(s[..p]), c, p, p + 1)
  {
    hide Stages, Words;
    StagesSnoc(s, p);
    WordsSnoc(Stages(s[..p])[c], s[p]);
    assert s[p..p + 1] == [s[p]];
  }

  lemma WordGoesOn(s: seq<char>, st0: seq<seq<char>>, c: nat, q: nat, p: nat)
    requires InWord(s, st0, c, q, p) && p < |s| && !IsSpace(s[p]) && s[p] != '|'
    ensures InWord(s, st0, c, q, p + 1)
  {
    hide Stages, Words;
    StagesSnoc(s, p);
    WordsSnoc(Stages(s[..p])[c], s[p]);
    assert s[q..p + 1] == s[q..p] + [s[p]];
  }

  /** The word q..p has ended and its delimiter, if any, has become NUL. */
  lemma WordEnds(s: seq<char>, buf: seq<char>, buf': seq<char>, cmds: seq<seq<int>>, q: nat, p: nat, c: nat, argc: nat)
    requires Progress(s, buf, cmds, q, c, argc) && argc + 1 < MAX_ARGS && InWord(s, Stages(s[..q]), c, q, p)
    requires |buf'| == |buf| && (forall k :: 0 <= k < |buf| && k != p ==> buf'[k] == buf[k]) && buf'[p] == NUL
    requires NUL !in s
    ensures var st := Stages(s[..p]);
            var cmds' := cmds[c := cmds[c][argc := q]];
            && |st| == c + 1 && |Words(st[c])| == argc + 1
            && (forall i :: 0 <= i < c ==>
                  st[i] == Stages(s[..q])[i] && StageOk(st[i]) && RowOk(buf', cmds'[i], Words(st[i]), p))
            && RowOk(buf', cmds'[c], Words(st[c]), p + 1)
  {
    hide Stages, Words;
    var st0, st := Stages(s[..q]), Stages(s[..p]);
    var w := s[q..p];
    var row := cmds[c][argc := q];
    forall i | 0 <= i < c ensures st[i] == st0[i] && RowOk(buf', cmds[i], Words(st[i]), p) {
      assert st[i] == st[..c][i] && st0[i] == st0[..c][i];
      RowKept(buf, buf', cmds[i], Words(st0[i]), q, p);
    }
    assert buf'[q..p] == w;
    assert NUL !in w by { assert forall x :: x in w ==> x in s; }
    assert CString(buf', q, w);
    forall j | 0 <= j < argc ensures CString(buf', row[j], Words(st0[c])[j]) {
      var u := Words(st0[c])[j];
      assert CString(buf, row[j], u) && row[j] + |u| < q + 1;
      assert row[j] + |u| < q by { assert buf[q] == s[q] && s[q] in s; }
      assert buf'[row[j]..row[j] + |u|] == buf[row[j]..row[j] + |u|];
    }
  }

  /** A word q..p of stage c has ended in the line and in the buffer. */
  ghost predicate WordDone(s: seq<char>, buf: seq<char>, buf': seq<char>, cmds: seq<seq<int>>, q: nat, p: nat,
                           c: nat, argc: nat)
  {
    && Progress(s, buf, cmds, q, c, argc) && argc + 1 < MAX_ARGS && InWord(s, Stages(s[..q]), c, q, p)
    && |buf'| == |buf| && (forall k :: 0 <= k < |buf| && k != p ==> buf'[k] == buf[k]) && buf'[p] == NUL
    && NUL !in s
  }

  /** The rows are in order one position further on. */
  lemma RowsOn(s: seq<char>, buf: seq<char>, buf': seq<char>, cmds: seq<seq<int>>, q: nat, p: nat, c: nat, argc: nat)
    requires WordDone(s, buf, buf', cmds, q, p, c, argc)
    ensures var st := Stages(s[..p]);
            var cmds' := cmds[c := cmds[c][argc := q]];
            && |st| == c + 1 && |Words(st[c])| == argc + 1
            && (forall i :: 0 <= i < c ==>
                  StageOk(st[i]) && RowOk(buf', cmds'[i], Words(st[i]), p + 1) && cmds'[i][|Words(st[i])|] == NULL)
            && RowOk(buf', cmds'[c], Words(st[c]), p + 1) && RowOk(buf', cmds'[c], Words(st[c]), p + 2)
  {
    hide Stages, Words;
    WordEnds(s, buf, buf', cmds, q, p, c, argc);
    var st, cmds' := Stages(s[..p]), cmds[c := cmds[c][argc := q]];
    forall i | 0 <= i < c ensures RowOk(buf', cmds'[i], Words(st[i]), p + 1) {
      RowKept(buf', buf', cmds'[i], Words(st[i]), p, p + 1);
    }
  }

  lemma AfterLastWord(s: seq<char>, buf: seq<char>, buf': seq<char>, cmds: seq<seq<int>>, q: nat, c: nat, argc: nat)
    requires WordDone(s, buf, buf', cmds, q, |s|, c, argc)
    ensures Progress(s, buf', cmds[c := cmds[c][argc := q]], |s|, c, argc + 1)
  {
    hide Stages, Words, RowOk, StageOk, InWord;
    WordEnds(s, buf, buf', cmds, q, |s|, c, argc);
  }

  lemma AfterSpace(s: seq<char>, buf: seq<char>, buf': seq<char>, cmds: seq<seq<int>>, q: nat, p: nat, c: nat,
                   argc: nat)
    requires WordDone(s, buf, buf', cmds, q, p, c, argc) && p < |s| && IsSpace(s[p])
    ensures Progress(s, buf', cmds[c := cmds[c][argc := q]], p + 1, c, argc + 1)
  {
    hide Stages, Words, RowOk, StageOk;
    RowsOn(s, buf, buf', cmds, q, p, c, argc);
    StagesSnoc(s, p);
    WordsSnoc(Stages(s[..p])[c], s[p]);
  }

  lemma AfterBar(s: seq<char>, buf: seq<char>, buf': seq<char>, cmds: seq<seq<int>>, q: nat, p: nat, c: nat, argc: nat)
    requires WordDone(s, buf, buf', cmds, q, p, c, argc) && p < |s| && s[p] == '|'
    ensures |Stages(s[..p + 1])| == c + 2
    ensures c + 1 < MAX_COMMANDS ==> Progress(s, buf', cmds[c := cmds[c][argc := q]], p + 1, c + 1, 0)
  {
    hide Stages, Words, RowOk;
    RowsOn(s, buf, buf', cmds, q, p, c, argc);
    StagesSnoc(s, p);
    NoWords();
    NoRow(buf', cmds[if c + 1 < MAX_COMMANDS then c + 1 else 0], p + 2);
  }

  lemma NoRow(buf: seq<char>, row: seq<int>, p: nat)
    ensures RowOk(buf, row, [], p)
  {
  }

  /** At the end of the line the parser's state decides what the line is. */
  lemma AtEnd(s: seq<char>, buf: seq<char>, cmds: seq<seq<int>>, c: nat, argc: nat)
    requires Progress(s, buf, cmds, |s|, c, argc)
    ensures |Stages(s)| == c + 1
    ensures argc == 0 && c == 0 ==> IsBlank(s) && !IsPipeline(s)
    ensures argc == 0 && c > 0 ==> !IsBlank(s) && !IsPipeline(s)
    ensures argc > 0 ==> IsPipeline(s) && !IsBlank(s)
    ensures forall i :: 0 <= i < c + 1 ==> RowOk(buf, cmds[i], Words(Stages(s)[i]), |buf|)
    ensures forall i :: 0 <= i < c + 1 && argc > 0 ==> cmds[i][|Words(Stages(s)[i])|] == NULL
  {
    hide Stages, Words;
    assert s[..|s|] == s;
    var st := Stages(s);
    assert argc == 0 ==> !StageOk(st[c]);
    forall i | 0 <= i < c + 1 ensures RowOk(buf, cmds[i], Words(st[i]), |buf|) {
      if i < c {
        RowKept(buf, buf, cmds[i], Words(st[i]), |s|, |buf|);
      } else {
        RowKept(buf, buf, cmds[c], Words(st[c]), |s| + 1, |buf|);
      }
    }
  }

  lemma AtStart(s: seq<char>, buf: seq<char>, cmds: seq<seq<int>>)
    requires |s| < |buf| && buf[..|s|] == s && buf[|s|] == NUL
    requires cmds == seq(MAX_COMMANDS, _ => seq(MAX_ARGS, _ => NULL))
    ensures Progress(s, buf, cmds, 0, 0, 0)
  {
    assert s[..0] == [];
    forall k | 0 <= k < |s| ensures buf[k] == s[k] { assert buf[k] == buf[..|s|][k]; }
  }

  /** parse_pipeline, on a line that ends at the first NUL.  The result is the number of stages
      exactly when the line is a pipeline, 0 exactly when it is blank, and -1 otherwise; on
      success every argv pointer denotes its word in the mutated buffer. */
  method ParsePipeline(line: array<char>, ghost s: seq<char>) returns (r: int, cmds: seq<seq<int>>)
    requires |s| < line.Length && line[..|s|] == s && line[|s|] == NUL && NUL !in s
    modifies line
    ensures r == if IsBlank(s) then 0 else if IsPipeline(s) then |Stages(s)| else -1
    ensures r > 0 <==> IsPipeline(s)
    ensures |cmds| == MAX_COMMANDS && forall i :: 0 <= i < MAX_COMMANDS ==> |cmds[i]| == MAX_ARGS
    ensures r > 0 ==> forall i :: 0 <= i < r ==>
              && RowOk(line[..], cmds[i], Words(Stages(s)[i]), line.Length)
              && cmds[i][|Words(Stages(s)[i])|] == NULL
  {
    hide Stages, Words, Progress, InWord, IsPipeline, IsBlank;
    cmds := seq(MAX_COMMANDS, _ => seq(MAX_ARGS, _ => NULL));
    var c, argc, p := 0, 0, 0;
    AtStart(s, line[..], cmds);
    while true
      invariant 0 <= p && 0 <= c && 0 <= argc && Progress(s, line[..], cmds, p, c, argc)
      decreases |s| - p
    {
      ghost var p0 := p;
      Here(s, line[..], cmds, p, c, argc);
      while IsSpace(line[p])
        invariant p0 <= p <= |s| < line.Length && Progress(s, line[..], cmds, p, c, argc)
        invariant line[p] == if p < |s| then s[p] else NUL
        decreases |s| - p
      {
        SkipSpace(s, line[..], cmds, p, c, argc);
        p := p + 1;
        Here(s, line[..], cmds, p, c, argc);
      }
      Here(s, line[..], cmds, p, c, argc);
      if line[p] == NUL {
        break;
      }
      if line[p] == '|' {
        if argc == 0 {
          NoCommand(s, line[..], cmds, p, c);
          return -1, cmds;
        }
        NextCommand(s, line[..], cmds, p, c, argc);
        c := c + 1;
        if c >= MAX_COMMANDS {
          BadPrefix(s, p + 1, 0);
          return -1, cmds;
        }
        argc := 0;
        p := p + 1;
        continue;
      }
      WordBegins(s, line[..], cmds, p, c, argc);
      if argc >= MAX_ARGS - 1 {
        TooManyWords(s, line[..], cmds, p, c, argc);
        return -1, cmds;
      }
      ghost var buf, was := line[..], cmds;
      var q := p;
      p := p + 1;
      while line[p] != NUL && !IsSpace(line[p]) && line[p] != '|'
        invariant line[..] == buf && q < p <= |s| && InWord(s, Stages(s[..q]), c, q, p)
        decreases |s| - p
      {
        Ahead(s, buf, cmds, q, c, argc, p);
        WordGoesOn(s, Stages(s[..q]), c, q, p);
        p := p + 1;
      }
      Ahead(s, buf, cmds, q, c, argc, p);
      cmds := cmds[c := cmds[c][argc := q]];
      argc := argc + 1;
      var delimiter := line[p];
      if line[p] != NUL {
        line[p] := NUL;
      }
      assert WordDone(s, buf, line[..], was, q, p, c, argc - 1);
      if delimiter == NUL {
        AfterLastWord(s, buf, line[..], was, q, c, argc - 1);
      } else if delimiter == '|' {
        AfterBar(s, buf, line[..], was, q, p, c, argc - 1);
      } else {
        AfterSpace(s, buf, line[..], was, q, p, c, argc - 1);
      }
      if delimiter != NUL {
        p := p + 1;
      }
      if delimiter == '|' {
        c := c + 1;
        if c >= MAX_COMMANDS {
          BadPrefix(s, p, 0);
          return -1, cmds;
        }
        argc := 0;
      }
    }
    AtEnd(s, line[..], cmds, c, argc);
    if argc == 0 {
      return if c == 0 then 0 else -1, cmds;
    }
    r := c + 1;
  }

  lemma Here(s: seq<char>, buf: seq<char>, cmds: seq<seq<int>>, p: nat, c: nat, argc: nat)
    requires Progress(s, buf, cmds, p, c, argc)
    ensures p <= |s| < |buf| && buf[p] == (if p < |s| then s[p] else NUL) && c < MAX_COMMANDS && argc < MAX_ARGS
    ensures |cmds| == MAX_COMMANDS && forall i :: 0 <= i < MAX_COMMANDS ==> |cmds[i]| == MAX_ARGS
  {
  }

  lemma Ahead(s: seq<char>, buf: seq<char>, cmds: seq<seq<int>>, q: nat, c: nat, argc: nat, p: nat)
    requires Progress(s, buf, cmds, q, c, argc) && q <= p <= |s|
    ensures p < |buf| && buf[p] == (if p < |s| then s[p] else NUL)
  {
  }

  /** A '|' with nothing before it. */
  lemma NoCommand(s: seq<char>, buf: seq<char>, cmds: seq<seq<int>>, p: nat, c: nat)
    requires Progress(s, buf, cmds, p, c, 0) && p < |s| && s[p] == '|'
    ensures !IsPipeline(s) && !IsBlank(s)
  {
    hide Stages, Words;
    StagesSnoc(s, p);
    BadPrefix(s, p + 1, c);
  }

  lemma TooManyWords(s: seq<char>, buf: seq<char>, cmds: seq<seq<int>>, p: nat, c: nat, argc: nat)
    requires Progress(s, buf, cmds, p, c, argc) && InWord(s, Stages(s[..p]), c, p, p + 1) && argc >= MAX_ARGS - 1
    ensures !IsPipeline(s) && !IsBlank(s)
  {
    hide Stages, Words;
    BadPrefix(s, p + 1, c);
  }
}
