/** The SecRule tokeniser: whitespace-separated tokens, quoted spans as one token. */
module Tokenizer {
  import opened Text

  /** The rest of a quoted token: what it collects and the text after it. An escaped quote collapses; other escapes stay. */
  function ReadQuoted(s: string, quote: char, tok: string): (r: (string, string))
    ensures |r.1| <= |s|
    decreases |s|
  {
    if s == "" then (tok, "")
    else if s[0] == '\\' then
      if |s| == 1 then (tok + ['\\'], "")
      else if s[1] == quote then ReadQuoted(s[2..], quote, tok + [s[1]])
      else ReadQuoted(s[2..], quote, tok + ['\\', s[1]])
    else if s[0] == quote then (tok, s[1..])
    else ReadQuoted(s[1..], quote, tok + [s[0]])
  }

  function ReadBare(s: string, tok: string): (r: (string, string))
    ensures |r.1| <= |s| && (s != "" && !IsSpace(s[0]) ==> |r.1| < |s|)
    decreases |s|
  {
    if s == "" || IsSpace(s[0]) then (tok, s) else ReadBare(s[1..], tok + [s[0]])
  }

  predicate IsQuote(c: char) { c == '"' || c == '\'' }

  function Tokens(s: string): seq<string>
    decreases |s|
  {
    if s == "" then []
    else if IsSpace(s[0]) then Tokens(s[1..])
    else
      var (tok, rest) := if IsQuote(s[0]) then ReadQuoted(s[1..], s[0], "") else ReadBare(s, "");
      [tok] + Tokens(rest)
  }

  /** The loop over a quoted span, from the character after its opening quote. */
  method TakeQuoted(s: string, start: nat, quote: char) returns (tok: string, i: nat)
    requires start <= |s|
    ensures start <= i <= |s| && ReadQuoted(s[start..], quote, "") == (tok, s[i..])
  {
    tok, i := "", start;
    while i < |s|
      invariant start <= i <= |s|
      invariant ReadQuoted(s[i..], quote, tok) == ReadQuoted(s[start..], quote, "")
    {
      var ch := s[i];
      assert s[i..][0] == ch && s[i..][1..] == s[i + 1..];
      i := i + 1;
      if ch == '\\' {
        if i < |s| {
          assert s[i - 1..][1] == s[i] && s[i - 1..][2..] == s[i + 1..];
          tok := if s[i] == quote then tok + [s[i]] else tok + ['\\', s[i]];
          i := i + 1;
        } else {
          tok := tok + ['\\'];
        }
      } else if ch == quote {
        return;
      } else {
        tok := tok + [ch];
      }
    }
  }

  /** The loop over an unquoted token. */
  method TakeBare(s: string, start: nat) returns (tok: string, i: nat)
    requires start < |s| && !IsSpace(s[start])
    ensures start < i <= |s| && ReadBare(s[start..], "") == (tok, s[i..])
  {
    tok, i := "", start;
    while i < |s| && !IsSpace(s[i])
      invariant start <= i <= |s|
      invariant ReadBare(s[i..], tok) == ReadBare(s[start..], "")
    {
      assert s[i..][0] == s[i] && s[i..][1..] == s[i + 1..];
      tok := tok + [s[i]];
      i := i + 1;
    }
  }

  /** `tokenize`: one cursor over the text. */
  method Tokenize(s: string) returns (out: seq<string>)
    ensures out == Tokens(s)
  {
    out := [];
    var i := 0;
    while i < |s|
      invariant 0 <= i <= |s|
      invariant out + Tokens(s[i..]) == Tokens(s)
      decreases |s| - i
    {
      var c := s[i];
      assert s[i..][0] == c && s[i..][1..] == s[i + 1..];
      if IsSpace(c) {
        i := i + 1;
      } else {
        var tok: string;
        if IsQuote(c) {
          tok, i := TakeQuoted(s, i + 1, c);
        } else {
          tok, i := TakeBare(s, i);
        }
        assert out + [tok] + Tokens(s[i..]) == out + ([tok] + Tokens(s[i..]));
        out := out + [tok];
      }
    }
  }

  // ── Round trip ─────────────────────────────────────────────────────────────

  function Escape(t: string): string {
    if t == "" then "" else (if t[0] == '"' then ['\\', '"'] else [t[0]]) + Escape(t[1..])
  }

  /** Read left to right, every backslash is followed by a character that is not a quote. */
  predicate Paired(t: string) {
    if t == "" then true
    else if t[0] == '\\' then |t| >= 2 && t[1] != '"' && Paired(t[2..])
    else Paired(t[1..])
  }

  lemma {:induction false} CollectsOn(s: string, quote: char, tok: string)
    ensures tok <= ReadQuoted(s, quote, tok).0
    decreases |s|
  {
    if s != "" {
      if s[0] == '\\' {
        if |s| > 1 {
          if s[1] == quote { CollectsOn(s[2..], quote, tok + [s[1]]); } else { CollectsOn(s[2..], quote, tok + ['\\', s[1]]); }
        }
      } else if s[0] != quote {
        CollectsOn(s[1..], quote, tok + [s[0]]);
      }
    }
  }

  /** A printed token reads back, with the text after its closing quote left over. */
  lemma {:induction false} ReadsBack(t: string, rest: string, tok: string)
    requires Paired(t)
    ensures ReadQuoted(Escape(t) + ['"'] + rest, '"', tok) == (tok + t, rest)
    decreases |t|
  {
    var s := Escape(t) + ['"'] + rest;
    if t == "" {
      assert s[1..] == rest && tok + t == tok;
    } else if t[0] == '\\' {
      assert Escape(t) == ['\\'] + ([t[1]] + Escape(t[1..][1..]));
      assert t[1..][1..] == t[2..];
      assert s[2..] == Escape(t[2..]) + ['"'] + rest;
      ReadsBack(t[2..], rest, tok + ['\\', t[1]]);
      assert tok + ['\\', t[1]] + t[2..] == tok + t;
    } else {
      ReadsBack(t[1..], rest, tok + [t[0]]);
      assert tok + [t[0]] + t[1..] == tok + t;
      if t[0] == '"' {
        assert s[2..] == Escape(t[1..]) + ['"'] + rest;
      } else {
        assert s[1..] == Escape(t[1..]) + ['"'] + rest;
      }
    }
  }

  /** A token with an unpaired backslash is misread. */
  lemma {:induction false} Misreads(t: string, rest: string, tok: string)
    requires !Paired(t)
    ensures ReadQuoted(Escape(t) + ['"'] + rest, '"', tok).0 != tok + t
    decreases |t|
  {
    var s := Escape(t) + ['"'] + rest;
    var got := ReadQuoted(s, '"', tok).0;
    if t[0] == '\\' {
      if |t| == 1 {
        assert t[1..] == "" && Escape(t) == ['\\'];
        assert s[0] == '\\' && s[1] == '"';
        CollectsOn(s[2..], '"', tok + ['"']);
        assert got[|tok|] == '"' && (tok + t)[|tok|] == '\\';
      } else if t[1] == '"' {
        assert t[1..][0] == '"';
        assert Escape(t) == ['\\'] + (['\\', '"'] + Escape(t[1..][1..]));
        assert s[0] == '\\' && s[1] == '\\' && s[2..][0] == '"';
        assert ReadQuoted(s[2..], '"', tok + ['\\', '\\']).0 == tok + ['\\', '\\'];
        assert got == tok + ['\\', '\\'];
        assert (tok + t)[|tok| + 1] == '"' && got[|tok| + 1] == '\\';
      } else {
        assert Escape(t) == ['\\'] + ([t[1]] + Escape(t[1..][1..]));
        assert t[1..][1..] == t[2..];
        assert s[2..] == Escape(t[2..]) + ['"'] + rest;
        Misreads(t[2..], rest, tok + ['\\', t[1]]);
        assert tok + ['\\', t[1]] + t[2..] == tok + t;
      }
    } else {
      Misreads(t[1..], rest, tok + [t[0]]);
      assert tok + [t[0]] + t[1..] == tok + t;
      if t[0] == '"' {
        assert s[2..] == Escape(t[1..]) + ['"'] + rest;
      } else {
        assert s[1..] == Escape(t[1..]) + ['"'] + rest;
      }
    }
  }

  predicate Space(s: string) { forall i :: 0 <= i < |s| ==> IsSpace(s[i]) }

  lemma {:induction false} SkipsSpace(gap: string, rest: string)
    requires Space(gap)
    ensures Tokens(gap + rest) == Tokens(rest)
  {
    if gap == "" {
      assert gap + rest == rest;
    } else {
      assert (gap + rest)[1..] == gap[1..] + rest;
      SkipsSpace(gap[1..], rest);
    }
  }

  /** Tokens in double quotes, each after a gap of any whitespace, with a last gap at the end. */
  function Print(ts: seq<string>, gaps: seq<string>): string
    requires |gaps| == |ts| + 1
  {
    if ts == [] then gaps[0]
    else gaps[0] + (['"'] + (Escape(ts[0]) + ['"'] + Print(ts[1..], gaps[1..])))
  }

  /** Printing and tokenising returns the same list if and only if every backslash of every token is paired. */
  lemma {:induction false} TokensRoundTrip(ts: seq<string>, gaps: seq<string>)
    requires |gaps| == |ts| + 1 && forall i :: 0 <= i < |gaps| ==> Space(gaps[i])
    ensures Tokens(Print(ts, gaps)) == ts <==> forall i :: 0 <= i < |ts| ==> Paired(ts[i])
  {
    if ts == [] {
      SkipsSpace(gaps[0], "");
      assert gaps[0] + "" == gaps[0];
    } else {
      var rest := Print(ts[1..], gaps[1..]);
      var inner := Escape(ts[0]) + ['"'] + rest;
      SkipsSpace(gaps[0], ['"'] + inner);
      assert (['"'] + inner)[1..] == inner;
      var (tok, left) := ReadQuoted(inner, '"', "");
      assert Tokens(['"'] + inner) == [tok] + Tokens(left);
      if Paired(ts[0]) {
        ReadsBack(ts[0], rest, "");
        assert "" + ts[0] == ts[0];
        TokensRoundTrip(ts[1..], gaps[1..]);
        assert ts == [ts[0]] + ts[1..];
        assert Tokens(Print(ts, gaps))[1..] == Tokens(rest);
      } else {
        Misreads(ts[0], rest, "");
        assert "" + ts[0] == ts[0];
        assert Tokens(Print(ts, gaps))[0] != ts[0];
      }
    }
  }

  // ── Other tokens ───────────────────────────────────────────────────────────

  lemma {:induction false} BareOn(w: string, rest: string, tok: string)
    requires (forall i :: 0 <= i < |w| ==> !IsSpace(w[i])) && (rest == "" || IsSpace(rest[0]))
    ensures ReadBare(w + rest, tok) == (tok + w, rest)
  {
    if w == "" {
      assert w + rest == rest && tok + w == tok;
    } else {
      assert (w + rest)[1..] == w[1..] + rest;
      BareOn(w[1..], rest, tok + [w[0]]);
      assert tok + [w[0]] + w[1..] == tok + w;
    }
  }

  /** A token without quotes in front goes on to the next whitespace, quotes and backslashes inside it as they are. */
  lemma BareToken(w: string, rest: string)
    requires w != "" && !IsQuote(w[0]) && (forall i :: 0 <= i < |w| ==> !IsSpace(w[i])) && (rest == "" || IsSpace(rest[0]))
    ensures Tokens(w + rest) == [w] + Tokens(rest)
  {
    BareOn(w, rest, "");
    assert "" + w == w && (w + rest)[0] == w[0];
  }

  lemma {:induction false} QuotedOn(t: string, quote: char, rest: string, tok: string)
    requires Free(t, quote) && Free(t, '\\')
    requires quote != '\\' && (rest == "" || rest[0] == quote)
    ensures ReadQuoted(t + rest, quote, tok) == (tok + t, if rest == "" then "" else rest[1..])
  {
    if t == "" {
      assert t + rest == rest && tok + t == tok;
    } else {
      assert (t + rest)[0] == t[0] && (t + rest)[1..] == t[1..] + rest;
      QuotedOn(t[1..], quote, rest, tok + [t[0]]);
      assert tok + [t[0]] + t[1..] == tok + t;
    }
  }

  /** Either kind of quote opens a token that ends at the next quote of that kind; without one it takes the rest of the line. */
  lemma QuotedToken(quote: char, t: string, rest: string)
    requires IsQuote(quote) && Free(t, quote) && Free(t, '\\')
    ensures Tokens([quote] + t + [quote] + rest) == [t] + Tokens(rest)
    ensures Tokens([quote] + t) == [t]
  {
    var s := [quote] + t + [quote] + rest;
    assert s[1..] == t + ([quote] + rest);
    QuotedOn(t, quote, [quote] + rest, "");
    assert ([quote] + t)[1..] == t + "";
    QuotedOn(t, quote, "", "");
    assert "" + t == t;
  }
}
