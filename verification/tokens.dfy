/** The word tokenizer at the start of `_optimal_line_break` and its inverse,
    joining tokens with single spaces (Python's `' '.join`). */
module Tokens {

  /** Characters that end a token: a space or a comma. */
  predicate IsDelimiter(c: char) {
    c == ' ' || c == ','
  }

  /** A run of text holding no delimiter: what the tokenizer accumulates. */
  predicate IsWord(w: string) {
    forall k :: 0 <= k < |w| ==> !IsDelimiter(w[k])
  }

  /** What the tokenizer emits: a non-empty word, optionally followed by the
      single comma that ended it. */
  predicate IsToken(t: string) {
    && |t| > 0
    && (IsWord(t) || (|t| >= 2 && t[|t| - 1] == ',' && IsWord(t[..|t| - 1])))
  }

  predicate AllTokens(ts: seq<string>) {
    forall k :: 0 <= k < |ts| ==> IsToken(ts[k])
  }

  /** The tokens emitted for `text` when the word read so far is `pending`:
      a delimiter closes a non-empty pending word (a comma stays attached to
      it), an empty pending word is never emitted, and the word still pending
      at the end is emitted if non-empty. */
  function Scan(text: string, pending: string): (ts: seq<string>)
    requires IsWord(pending)
    ensures AllTokens(ts)
    decreases |text|
  {
    if |text| == 0 then
      if pending == "" then [] else [pending]
    else if IsDelimiter(text[0]) then
      if pending == "" then Scan(text[1..], "")
      else
        var closed := if text[0] == ',' then pending + "," else pending;
        assert closed[..|pending|] == pending;
        [closed] + Scan(text[1..], "")
    else
      Scan(text[1..], pending + [text[0]])
  }

  /** The token list `_optimal_line_break` works on. */
  function Tokenize(text: string): seq<string> {
    Scan(text, "")
  }

  /** Python's `' '.join(ts)`. */
  function Join(ts: seq<string>): string {
    if |ts| == 0 then ""
    else if |ts| == 1 then ts[0]
    else Join(ts[..|ts| - 1]) + " " + ts[|ts| - 1]
  }

  /** The character loop of `_optimal_line_break`, as written: it computes
      exactly `Tokenize`, and every token it emits is well formed. */
  method TokenizeLoop(text: string) returns (tokens: seq<string>)
    ensures tokens == Tokenize(text)
    ensures forall k :: 0 <= k < |tokens| ==> |tokens[k]| > 0 && SpaceFreeCommaLast(tokens[k])
  {
    tokens := [];
    var current := "";
    var i := 0;
    while i < |text|
      invariant 0 <= i <= |text|
      invariant IsWord(current)
      invariant tokens + Scan(text[i..], current) == Tokenize(text)
    {
      var c := text[i];
      assert text[i..][0] == c && text[i..][1..] == text[i + 1..];
      if c == ' ' || c == ',' {
        if current != "" {
          if c == ',' {
            tokens := tokens + [current + ","];
          } else {
            tokens := tokens + [current];
          }
          current := "";
        }
      } else {
        current := current + [c];
      }
      i := i + 1;
    }
    assert text[i..] == "";
    if current != "" {
      tokens := tokens + [current];
    }
    assert tokens == Tokenize(text);
    assert AllTokens(tokens);
    forall k | 0 <= k < |tokens|
      ensures |tokens[k]| > 0 && SpaceFreeCommaLast(tokens[k])
    {
      assert IsToken(tokens[k]);
    }
  }

  /** No space anywhere, and a comma only as the final character. */
  predicate SpaceFreeCommaLast(t: string) {
    forall j :: 0 <= j < |t| ==> t[j] != ' ' && (t[j] == ',' ==> j == |t| - 1)
  }

  /** Joining a non-empty list to a non-empty list puts one space between them. */
  lemma {:induction false} JoinAppend(a: seq<string>, b: seq<string>)
    requires |a| > 0 && |b| > 0
    ensures Join(a + b) == Join(a) + " " + Join(b)
    decreases |b|
  {
    if |b| == 1 {
      assert (a + b)[..|a + b| - 1] == a;
    } else {
      var b' := b[..|b| - 1];
      assert (a + b)[..|a + b| - 1] == a + b';
      JoinAppend(a, b');
    }
  }

  /** Extending a prefix by one token lengthens its join by that token plus a space. */
  lemma JoinPrefixStep(ts: seq<string>, i: nat)
    requires 1 <= i < |ts|
    ensures Join(ts[..i + 1]) == Join(ts[..i]) + " " + ts[i]
    ensures |Join(ts[..i + 1])| == |Join(ts[..i])| + 1 + |ts[i]|
  {
    assert ts[..i + 1][..i] == ts[..i];
  }

  /** A word followed by more text is carried into the pending word unchanged. */
  lemma {:induction false} ScanWord(w: string, rest: string, pending: string)
    requires IsWord(w) && IsWord(pending)
    ensures IsWord(pending + w)
    ensures Scan(w + rest, pending) == Scan(rest, pending + w)
    decreases |w|
  {
    if |w| == 0 {
      assert w + rest == rest && pending + w == pending;
    } else {
      assert (w + rest)[0] == w[0];
      assert (w + rest)[1..] == w[1..] + rest;
      assert pending + [w[0]] + w[1..] == pending + w;
      ScanWord(w[1..], rest, pending + [w[0]]);
    }
  }

  /** Tokenizing a token followed by `tail` emits that token first. */
  lemma ScanToken(t: string, tail: string)
    requires IsToken(t)
    requires tail == "" || tail[0] == ' '
    ensures Scan(t + tail, "") == [t] + Scan(if tail == "" then "" else tail[1..], "")
  {
    var rest := if tail == "" then "" else tail[1..];
    if IsWord(t) {
      ScanWord(t, tail, "");
      assert "" + t == t;
    } else {
      var w := t[..|t| - 1];
      assert t + tail == w + ([','] + tail);
      ScanWord(w, [','] + tail, "");
      assert "" + w == w;
      assert ([','] + tail)[1..] == tail;
      assert w + "," == t;
      if tail != "" {
        assert tail[1..] == rest;
      }
    }
  }

  /** Round trip: the tokenizer recovers any list of well-formed tokens from
      their space-separated join. */
  lemma {:induction false} TokenizeJoin(ts: seq<string>)
    requires AllTokens(ts)
    ensures Tokenize(Join(ts)) == ts
    decreases |ts|
  {
    if |ts| == 0 {
    } else if |ts| == 1 {
      ScanToken(ts[0], "");
      assert ts[0] + "" == ts[0];
    } else {
      var rest := ts[1..];
      assert ts == [ts[0]] + rest;
      JoinAppend([ts[0]], rest);
      assert Join(ts) == ts[0] + (" " + Join(rest));
      ScanToken(ts[0], " " + Join(rest));
      assert (" " + Join(rest))[1..] == Join(rest);
      TokenizeJoin(rest);
    }
  }
}
