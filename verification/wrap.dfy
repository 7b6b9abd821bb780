/**
 * The 80-column field encoder of the cpin script: `addOn` appends one token
 * to the line being built, or prints that line and starts a continuation line
 * (a single space followed by the token) when the token would push it past
 * column 80. A field is a prefix such as " CHRGDAT=" fed its tokens one by one;
 * the last working line is printed when the field is complete.
 */
module Wrap {
  import opened Outcomes
  import opened Text

  /** The column limit of the namelist lines. */
  const Width := 80

  /** What one `addOn` call does: the line it prints, if any, and the new working line. */
  datatype Step = Step(emitted: Option<string>, line: string)

  /** A field part-way through: the lines printed so far and the working line. */
  datatype Filled = Filled(emitted: seq<string>, line: string)

  /**
   * One `addOn(line, token)` call: when the token still fits within 80
   * columns it is appended and nothing is printed; otherwise the line is
   * printed unchanged and the token, whole, starts a continuation line.
   */
  function AddOn(line: string, token: string): (r: Step)
    ensures r.emitted.Some? <==> |line| + |token| > Width
    ensures r.emitted.None? ==> r.line == line + token && |r.line| <= Width
    ensures r.emitted.Some? ==> r.emitted.value == line && r.line == " " + token
  {
    if |line| + |token| > Width then Step(Some(line), " " + token) else Step(None, line + token)
  }

  /** Feeds `tokens`, in order, to `addOn` starting from the working line `line`. */
  function Fill(line: string, tokens: seq<string>): (r: Filled)
    ensures |r.emitted| <= |tokens|
    decreases |tokens|
  {
    if tokens == [] then Filled([], line)
    else
      var s := AddOn(line, tokens[0]);
      var rest := Fill(s.line, tokens[1..]);
      Filled((if s.emitted.Some? then [s.emitted.value] else []) + rest.emitted, rest.line)
  }

  /** Every physical line a field prints: the lines `addOn` printed, then the final working line. */
  function Lines(prefix: string, tokens: seq<string>): seq<string> {
    var f := Fill(prefix, tokens);
    f.emitted + [f.line]
  }

  /** Removes the single space that starts a continuation line. */
  function Unindent(s: string): string {
    if |s| > 0 then s[1..] else s
  }

  function Continuations(lines: seq<string>): string
    decreases |lines|
  {
    if lines == [] then "" else Unindent(lines[0]) + Continuations(lines[1..])
  }

  /** Undoes the wrapping: the first line, then every later line without its leading space. */
  function Rejoin(lines: seq<string>): string
    requires |lines| >= 1
  {
    lines[0] + Continuations(lines[1..])
  }

  /** One `addOn` call of a field, unfolded. */
  lemma FillStep(line: string, tokens: seq<string>)
    requires tokens != []
    ensures var s := AddOn(line, tokens[0]);
            var rest := Fill(s.line, tokens[1..]);
            Fill(line, tokens) == Filled((if s.emitted.Some? then [s.emitted.value] else []) + rest.emitted, rest.line)
  {
  }

  /** One token of a field, unfolded. */
  lemma LinesStep(line: string, tokens: seq<string>)
    requires tokens != []
    ensures |line| + |tokens[0]| > Width ==> Lines(line, tokens) == [line] + Lines(" " + tokens[0], tokens[1..])
    ensures |line| + |tokens[0]| <= Width ==> Lines(line, tokens) == Lines(line + tokens[0], tokens[1..])
  {
    FillStep(line, tokens);
    var s := AddOn(line, tokens[0]);
    var rest := Fill(s.line, tokens[1..]);
    if s.emitted.Some? {
      assert Fill(line, tokens).emitted == [line] + rest.emitted;
      assert Lines(line, tokens) == ([line] + rest.emitted) + [rest.line];
    } else {
      assert Fill(line, tokens) == rest;
    }
  }

  /** The first line of a field starts with the prefix. */
  lemma {:induction false} LinesFirst(prefix: string, tokens: seq<string>)
    ensures StartsWith(Lines(prefix, tokens)[0], prefix)
    decreases |tokens|
  {
    if tokens != [] {
      LinesStep(prefix, tokens);
      if |prefix| + |tokens[0]| <= Width {
        LinesFirst(prefix + tokens[0], tokens[1..]);
        assert (prefix + tokens[0])[..|prefix|] == prefix;
      }
    }
  }

  /** Every line after the first is a continuation line: it starts with one inserted space. */
  lemma {:induction false} LinesContinued(prefix: string, tokens: seq<string>)
    ensures forall i :: 1 <= i < |Lines(prefix, tokens)| ==>
              |Lines(prefix, tokens)[i]| > 0 && Lines(prefix, tokens)[i][0] == ' '
    decreases |tokens|
  {
    if tokens != [] {
      var t := tokens[0];
      LinesStep(prefix, tokens);
      if |prefix| + |t| > Width {
        var tail := Lines(" " + t, tokens[1..]);
        LinesContinued(" " + t, tokens[1..]);
        LinesFirst(" " + t, tokens[1..]);
        assert tail[0][..1] == (" " + t)[..1];
      } else {
        LinesContinued(prefix + t, tokens[1..]);
      }
    }
  }

  lemma ContinuationsOfRejoin(lines: seq<string>)
    requires |lines| >= 1 && |lines[0]| > 0
    ensures Continuations(lines) == Rejoin(lines)[1..]
  {
    assert Rejoin(lines) == lines[0] + Continuations(lines[1..]);
  }

  /** Putting a line in front of continuation lines that rejoin to " " + t + c. */
  lemma RejoinContinued(prefix: string, t: string, c: string, tail: seq<string>)
    requires |tail| >= 1 && StartsWith(tail[0], " " + t)
    requires Rejoin(tail) == " " + t + c
    ensures Rejoin([prefix] + tail) == prefix + t + c
  {
    assert ([prefix] + tail)[1..] == tail;
    assert |tail[0]| > 0;
    ContinuationsOfRejoin(tail);
    assert (" " + t + c)[1..] == t + c;
  }

  /**
   * Round trip: joining the printed lines of a field, with the inserted
   * leading spaces removed, gives back the prefix followed by all the tokens.
   */
  lemma {:induction false} RejoinLines(prefix: string, tokens: seq<string>)
    ensures Rejoin(Lines(prefix, tokens)) == prefix + Concat(tokens)
    decreases |tokens|
  {
    var ls := Lines(prefix, tokens);
    if tokens == [] {
      assert ls == [prefix];
      assert Rejoin(ls) == prefix;
    } else {
      var t, rest := tokens[0], tokens[1..];
      assert Concat(tokens) == t + Concat(rest);
      LinesStep(prefix, tokens);
      if |prefix| + |t| > Width {
        var tail := Lines(" " + t, rest);
        assert ls == [prefix] + tail;
        RejoinLines(" " + t, rest);
        LinesFirst(" " + t, rest);
        RejoinContinued(prefix, t, Concat(rest), tail);
        assert Rejoin(ls) == prefix + t + Concat(rest);
      } else {
        RejoinLines(prefix + t, rest);
        assert ls == Lines(prefix + t, rest);
        assert Rejoin(ls) == prefix + t + Concat(rest);
      }
      assert prefix + t + Concat(rest) == prefix + Concat(tokens);
    }
  }

  /** Text that ends exactly between two tokens: the prefix and the first `k` tokens, for some `k`. */
  predicate EndsBetweenTokens(prefix: string, tokens: seq<string>, text: string) {
    exists k :: 0 <= k <= |tokens| && text == prefix + Concat(tokens[..k])
  }

  lemma ConcatCons(t: string, rest: seq<string>, k: nat)
    requires k <= |rest|
    ensures Concat(([t] + rest)[..k + 1]) == t + Concat(rest[..k])
  {
    assert ([t] + rest)[..k + 1] == [t] + rest[..k];
    assert ([t] + rest[..k])[1..] == rest[..k];
  }

  /** The first `n` printed lines of a field, rejoined, end between two whole tokens. */
  lemma {:induction false} BreakBetweenTokens(prefix: string, tokens: seq<string>, n: nat)
    requires 1 <= n <= |Lines(prefix, tokens)|
    ensures EndsBetweenTokens(prefix, tokens, Rejoin(Lines(prefix, tokens)[..n]))
    decreases |tokens|
  {
    if tokens == [] || (n == 1 && |prefix| + |tokens[0]| > Width) {
      PrefixLineEnds(prefix, tokens, n);
    } else {
      var t, rest := tokens[0], tokens[1..];
      assert tokens == [t] + rest;
      LinesStep(prefix, tokens);
      if |prefix| + |t| > Width {
        BreakBetweenTokens(" " + t, rest, n - 1);
        var k :| 0 <= k <= |rest| && Rejoin(Lines(" " + t, rest)[..n - 1]) == " " + t + Concat(rest[..k]);
        RejoinAfterBreak(prefix, t, rest, n, k);
        EndsAt(prefix, tokens, Rejoin(Lines(prefix, tokens)[..n]), k + 1);
      } else {
        BreakBetweenTokens(prefix + t, rest, n);
        var k :| 0 <= k <= |rest| && Rejoin(Lines(prefix + t, rest)[..n]) == prefix + t + Concat(rest[..k]);
        ConcatCons(t, rest, k);
        EndsAt(prefix, tokens, Rejoin(Lines(prefix, tokens)[..n]), k + 1);
      }
    }
  }

  lemma EndsAt(prefix: string, tokens: seq<string>, text: string, k: nat)
    requires k <= |tokens| && text == prefix + Concat(tokens[..k])
    ensures EndsBetweenTokens(prefix, tokens, text)
  {
  }

  /** The first line alone, when it holds no token, ends before the first token. */
  lemma PrefixLineEnds(prefix: string, tokens: seq<string>, n: nat)
    requires 1 <= n <= |Lines(prefix, tokens)|
    requires tokens == [] || (n == 1 && |prefix| + |tokens[0]| > Width)
    ensures EndsBetweenTokens(prefix, tokens, Rejoin(Lines(prefix, tokens)[..n]))
  {
    var ls := Lines(prefix, tokens);
    if tokens != [] {
      LinesStep(prefix, tokens);
    }
    assert ls[..n] == [prefix];
    EndsAt(prefix, tokens, Rejoin(ls[..n]), 0);
  }

  /** The step of `BreakBetweenTokens` where the first token starts a continuation line. */
  lemma RejoinAfterBreak(prefix: string, t: string, rest: seq<string>, n: nat, k: nat)
    requires 2 <= n <= 1 + |Lines(" " + t, rest)| && k <= |rest|
    requires Rejoin(Lines(" " + t, rest)[..n - 1]) == " " + t + Concat(rest[..k])
    ensures Rejoin(([prefix] + Lines(" " + t, rest))[..n]) == prefix + Concat(([t] + rest)[..k + 1])
  {
    var tail := Lines(" " + t, rest);
    var ls := [prefix] + tail;
    LinesFirst(" " + t, rest);
    assert tail[..n - 1][0] == tail[0];
    ContinuationsOfRejoin(tail[..n - 1]);
    assert ls[..n] == [prefix] + tail[..n - 1];
    assert ls[..n][1..] == tail[..n - 1];
    assert Rejoin(ls[..n]) == prefix + Continuations(tail[..n - 1]);
    ConcatCons(t, rest, k);
  }

  /** Tokens are never split: every line break of a field falls between two whole tokens. */
  lemma LinesBreakBetweenTokens(prefix: string, tokens: seq<string>)
    ensures forall n :: 1 <= n <= |Lines(prefix, tokens)| ==>
              EndsBetweenTokens(prefix, tokens, Rejoin(Lines(prefix, tokens)[..n]))
  {
    forall n | 1 <= n <= |Lines(prefix, tokens)|
      ensures EndsBetweenTokens(prefix, tokens, Rejoin(Lines(prefix, tokens)[..n]))
    {
      BreakBetweenTokens(prefix, tokens, n);
    }
  }

  /**
   * Width bound: a printed line is at most 80 characters long unless it is
   * the prefix alone or a single space and one token alone, already too long
   * on their own.
   */
  lemma {:induction false} LinesWidth(prefix: string, tokens: seq<string>)
    ensures forall l :: l in Lines(prefix, tokens) ==>
              |l| <= Width || l == prefix || (|l| > 0 && l[0] == ' ' && l[1..] in tokens)
    decreases |tokens|
  {
    var ls := Lines(prefix, tokens);
    if tokens == [] {
      assert ls == [prefix];
    } else {
      var t, rest := tokens[0], tokens[1..];
      LinesStep(prefix, tokens);
      if |prefix| + |t| > Width {
        LinesWidth(" " + t, rest);
        assert (" " + t)[1..] == t;
      } else {
        LinesWidth(prefix + t, rest);
      }
      forall l | l in rest ensures l in tokens {
        assert tokens == [t] + rest;
      }
    }
  }

  /**
   * The encoder loop: feeds the tokens to `addOn` one at a time, starting
   * from the working line `line`, and collects the printed lines.
   */
  method FeedTokens(line: string, tokens: seq<string>) returns (emitted: seq<string>, last: string)
    ensures emitted == Fill(line, tokens).emitted && last == Fill(line, tokens).line
  {
    last := line;
    emitted := [];
    var i := 0;
    while i < |tokens|
      invariant 0 <= i <= |tokens|
      invariant Fill(line, tokens).emitted == emitted + Fill(last, tokens[i..]).emitted
      invariant Fill(line, tokens).line == Fill(last, tokens[i..]).line
    {
      assert tokens[i..][1..] == tokens[i + 1..];
      FillStep(last, tokens[i..]);
      var s := AddOn(last, tokens[i]);
      if s.emitted.Some? {
        emitted := emitted + [s.emitted.value];
      }
      last := s.line;
      i := i + 1;
    }
    assert tokens[i..] == [];
  }

  /** A whole field: the prefix and its tokens through `addOn`, then the final working line. */
  method EmitField(prefix: string, tokens: seq<string>) returns (lines: seq<string>)
    ensures lines == Lines(prefix, tokens)
  {
    var emitted, last := FeedTokens(prefix, tokens);
    lines := emitted + [last];
  }
}
