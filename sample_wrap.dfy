/** `_wrap_text` of the sample-document generator: greedy filling of lines
    with the words of a text. Its counter charges every word of the first
    line one extra column, while later lines start from the bare length of
    their first word; `Greedy` states the resulting layout. */
module SampleWrap {
  import opened PyStr

  /** The counter after putting `ws` on the first line: each word costs its
      length plus one. */
  function Cost(ws: seq<string>): nat {
    if ws == [] then 0 else Cost(ws[..|ws| - 1]) + |ws[|ws| - 1]| + 1
  }

  /** The words of all groups, in order. */
  function Flat(gs: seq<seq<string>>): seq<string> {
    if gs == [] then [] else Flat(gs[..|gs| - 1]) + gs[|gs| - 1]
  }

  /** Each group of words joined with single spaces: the output lines. */
  function JoinAll(gs: seq<seq<string>>): (lines: seq<string>)
    ensures |lines| == |gs| && forall j :: 0 <= j < |gs| ==> lines[j] == Join(gs[j], " ")
  {
    seq(|gs|, j requires 0 <= j < |gs| => Join(gs[j], " "))
  }

  /** The counter once group `j` is complete: `Cost` on the first line, the
      joined length on the others. */
  function Counter(gs: seq<seq<string>>, j: nat): int
    requires j < |gs|
  {
    if j == 0 then Cost(gs[0]) else |Join(gs[j], " ")|
  }

  /** The layout `_wrap_text` produces, as groups of words per line:
      - the first group fits its counter into `width` (it may be empty);
      - every later group is non-empty, and longer than `width` only when it
        holds a single word;
      - each group ends exactly where its next word would push the counter
        past `width`. */
  predicate Greedy(gs: seq<seq<string>>, width: int) {
    && |gs| >= 1
    && (gs[0] != [] ==> Cost(gs[0]) <= width)
    && (forall j :: 1 <= j < |gs| ==> gs[j] != [] && (|gs[j]| == 1 || |Join(gs[j], " ")| <= width))
    && (forall j :: 0 <= j < |gs| - 1 ==> gs[j + 1] != [] && Counter(gs, j) + |gs[j + 1][0]| + 1 > width)
  }

  /** The loop's invariant before word `i`: the completed groups and the
      current line form a greedy layout of the first `i` words, the counter
      is that of the current line, and the lines emitted so far are the
      completed groups. */
  predicate Progress(words: seq<string>, width: int, i: nat, lines: seq<string>,
                     groups: seq<seq<string>>, current: seq<string>, currentLength: int) {
    && i <= |words|
    && Greedy(groups + [current], width)
    && Flat(groups + [current]) == words[..i]
    && currentLength == Counter(groups + [current], |groups|)
    && lines == JoinAll(groups)
  }

  lemma FlatSnoc(gs: seq<seq<string>>, g: seq<string>)
    ensures Flat(gs + [g]) == Flat(gs) + g
  {
    assert (gs + [g])[..|gs|] == gs;
  }

  lemma {:induction false} JoinSnoc(ws: seq<string>, w: string)
    requires ws != []
    ensures Join(ws + [w], " ") == Join(ws, " ") + " " + w
  {
    if |ws| == 1 {
      assert ws + [w] == [ws[0], w];
    } else {
      JoinSnoc(ws[1..], w);
      assert (ws + [w])[1..] == ws[1..] + [w];
    }
  }

  /** On a non-empty line the first-line counter runs one ahead of the
      joined length. */
  lemma {:induction false} CostOfJoin(ws: seq<string>)
    requires ws != []
    ensures Cost(ws) == |Join(ws, " ")| + 1
  {
    var init := ws[..|ws| - 1];
    if init != [] {
      CostOfJoin(init);
      JoinSnoc(init, ws[|ws| - 1]);
      assert init + [ws[|ws| - 1]] == ws;
    }
  }

  /** Adding a word that fits to the last group keeps the layout greedy and
      advances the counter by the word's length plus one. */
  lemma GreedyFit(groups: seq<seq<string>>, current: seq<string>, w: string, width: int)
    requires Greedy(groups + [current], width)
    requires Counter(groups + [current], |groups|) + |w| + 1 <= width
    ensures Greedy(groups + [current + [w]], width)
    ensures Counter(groups + [current + [w]], |groups|) == Counter(groups + [current], |groups|) + |w| + 1
  {
    var gs, next := groups + [current], groups + [current + [w]];
    assert (current + [w])[..|current|] == current;
    if groups != [] {
      assert current == gs[|groups|] && current != [];
      JoinSnoc(current, w);
      assert (current + [w])[0] == current[0];
      assert Counter(next, |groups|) == Counter(gs, |groups|) + |w| + 1;
      forall j | 1 <= j < |next| ensures next[j] != [] && (|next[j]| == 1 || |Join(next[j], " ")| <= width) {
        if j < |groups| {
          assert next[j] == gs[j];
        }
      }
      forall j | 0 <= j < |next| - 1 ensures next[j + 1] != [] && Counter(next, j) + |next[j + 1][0]| + 1 > width {
        assert next[j] == gs[j] && next[0] == gs[0];
        assert Counter(next, j) == Counter(gs, j);
        assert next[j + 1][0] == gs[j + 1][0];
      }
    }
  }

  /** The step for a word that still fits on the current line. */
  lemma FitStep(words: seq<string>, width: int, i: nat, lines: seq<string>,
                groups: seq<seq<string>>, current: seq<string>, currentLength: int)
    requires Progress(words, width, i, lines, groups, current, currentLength)
    requires i < |words| && currentLength + |words[i]| + 1 <= width
    ensures Progress(words, width, i + 1, lines, groups, current + [words[i]], currentLength + |words[i]| + 1)
  {
    var w := words[i];
    GreedyFit(groups, current, w, width);
    FlatSnoc(groups, current);
    FlatSnoc(groups, current + [w]);
    assert words[..i + 1] == words[..i] + [w];
  }

  /** Closing the last group before a word that would overflow it and
      opening a group with that word keeps the layout greedy. */
  lemma GreedyBreak(gs: seq<seq<string>>, w: string, width: int)
    requires Greedy(gs, width) && Counter(gs, |gs| - 1) + |w| + 1 > width
    ensures Greedy(gs + [[w]], width)
  {
    var next := gs + [[w]];
    forall j | 0 <= j < |next| - 1 ensures next[j + 1] != [] && Counter(next, j) + |next[j + 1][0]| + 1 > width {
      assert next[j] == gs[j] && next[0] == gs[0];
      assert Counter(next, j) == Counter(gs, j);
    }
  }

  /** The step for a word that starts a new line. */
  lemma BreakStep(words: seq<string>, width: int, i: nat, lines: seq<string>,
                  groups: seq<seq<string>>, current: seq<string>, currentLength: int)
    requires Progress(words, width, i, lines, groups, current, currentLength)
    requires i < |words| && currentLength + |words[i]| + 1 > width
    ensures Progress(words, width, i + 1, lines + [Join(current, " ")], groups + [current], [words[i]], |words[i]|)
  {
    var w := words[i];
    var gs := groups + [current];
    assert Greedy(gs + [[w]], width) by {
      GreedyBreak(gs, w, width);
    }
    assert Flat(gs + [[w]]) == words[..i + 1] by {
      FlatSnoc(gs, [w]);
      assert words[..i + 1] == words[..i] + [w];
    }
    assert Counter(gs + [[w]], |gs|) == |w| by {
      assert Join([w], " ") == w;
    }
    assert lines + [Join(current, " ")] == JoinAll(gs) by {
      JoinAllSnoc(groups, current);
    }
  }

  lemma JoinAllSnoc(gs: seq<seq<string>>, g: seq<string>)
    ensures JoinAll(gs + [g]) == JoinAll(gs) + [Join(g, " ")]
  {
  }

  /** `_wrap_text(text, width)`: a text without words gives no lines;
      otherwise the lines are the groups of a greedy layout of the text's
      words, joined with single spaces. */
  method WrapText(text: string, width: int) returns (lines: seq<string>, ghost groups: seq<seq<string>>)
    ensures IsBlank(text) <==> lines == []
    ensures !IsBlank(text) ==> Greedy(groups, width) && Flat(groups) == Words(text) && lines == JoinAll(groups)
  {
    var words := Words(text);
    WordsOfBlank(text);
    lines := [];
    groups := [];
    var current: seq<string> := [];
    var currentLength := 0;
    for i := 0 to |words|
      invariant Progress(words, width, i, lines, groups, current, currentLength)
    {
      var word := words[i];
      if currentLength + |word| + 1 <= width {
        FitStep(words, width, i, lines, groups, current, currentLength);
        current := current + [word];
        currentLength := currentLength + |word| + 1;
      } else {
        BreakStep(words, width, i, lines, groups, current, currentLength);
        lines := lines + [Join(current, " ")];
        groups := groups + [current];
        current := [word];
        currentLength := |word|;
      }
    }
    assert words[..|words|] == words;
    if current != [] {
      assert JoinAll(groups + [current]) == JoinAll(groups) + [Join(current, " ")];
      lines := lines + [Join(current, " ")];
      groups := groups + [current];
    } else {
      assert (groups + [current])[|groups|] == current;
      assert Flat([[]]) == [];
    }
  }

  /** The words of each line, in line order. */
  function LineWords(lines: seq<string>): seq<string> {
    Flat(seq(|lines|, j requires 0 <= j < |lines| => Words(lines[j])))
  }

  lemma {:induction false} FlatCons(gs: seq<seq<string>>)
    requires gs != []
    ensures Flat(gs) == gs[0] + Flat(gs[1..])
  {
    var n := |gs|;
    if n > 1 {
      var init := gs[..n - 1];
      FlatCons(init);
      assert init[1..] == gs[1..][..n - 2];
    }
  }

  /** Every grouped word is a word when the groups flatten to words. */
  lemma {:induction false} GroupsOfWords(gs: seq<seq<string>>)
    requires forall i :: 0 <= i < |Flat(gs)| ==> IsWord(Flat(gs)[i])
    ensures forall j, k :: 0 <= j < |gs| && 0 <= k < |gs[j]| ==> IsWord(gs[j][k])
  {
    if gs != [] {
      var n := |gs|;
      var init := gs[..n - 1];
      assert Flat(gs) == Flat(init) + gs[n - 1];
      forall i | 0 <= i < |Flat(init)| ensures IsWord(Flat(init)[i]) {
        assert Flat(init)[i] == Flat(gs)[i];
      }
      GroupsOfWords(init);
      forall j, k | 0 <= j < n && 0 <= k < |gs[j]| ensures IsWord(gs[j][k]) {
        if j < n - 1 {
          assert gs[j] == init[j];
        } else {
          assert gs[j][k] == Flat(gs)[|Flat(init)| + k];
        }
      }
    }
  }

  /** Wrapping loses, adds and reorders no word: the words of the lines, in
      order, are the words of the text. */
  lemma WrapKeepsWords(text: string, width: int, gs: seq<seq<string>>)
    requires Flat(gs) == Words(text)
    ensures LineWords(JoinAll(gs)) == Words(text)
  {
    GroupsOfWords(gs);
    var lines := JoinAll(gs);
    forall j | 0 <= j < |gs| ensures Words(lines[j]) == gs[j] {
      WordsOfJoin(gs[j]);
    }
    assert seq(|lines|, j requires 0 <= j < |lines| => Words(lines[j])) == gs;
  }

  /** Only the first line can be empty, and it is empty exactly when the
      first word is longer than `width - 1`. */
  lemma OnlyFirstLineEmpty(text: string, width: int, gs: seq<seq<string>>)
    requires !IsBlank(text) && Greedy(gs, width) && Flat(gs) == Words(text)
    ensures forall j :: 1 <= j < |gs| ==> JoinAll(gs)[j] != ""
    ensures JoinAll(gs)[0] == "" <==> |Words(text)[0]| > width - 1
  {
    WordsOfBlank(text);
    GroupsOfWords(gs);
    forall j | 0 <= j < |gs| ensures Join(gs[j], " ") == "" <==> gs[j] == [] {
      WordsOfJoin(gs[j]);
    }
    FlatCons(gs);
    if gs[0] == [] {
      FlatCons(gs[1..]);
      assert Counter(gs, 0) + |gs[1][0]| + 1 > width;
    } else {
      var w := gs[0][0];
      assert Cost(gs[0]) >= |w| + 1 by {
        CostAtLeastFirst(gs[0]);
      }
    }
  }

  lemma {:induction false} CostAtLeastFirst(ws: seq<string>)
    requires ws != []
    ensures Cost(ws) >= |ws[0]| + 1
  {
    if |ws| > 1 {
      CostAtLeastFirst(ws[..|ws| - 1]);
    }
  }

  /** Line lengths: the first line, when it is not empty, is at most
      `width - 1` long, because its counter runs one ahead of its length;
      a later line is at most `width` long unless it holds a single word. */
  lemma LineLengths(width: int, gs: seq<seq<string>>)
    requires Greedy(gs, width)
    ensures gs[0] != [] ==> |JoinAll(gs)[0]| <= width - 1
    ensures forall j :: 1 <= j < |gs| ==> |JoinAll(gs)[j]| <= width || |gs[j]| == 1
  {
    if gs[0] != [] {
      CostOfJoin(gs[0]);
    }
  }
}
