/**
 * The Markdown escape of the last-resort send in the bot's edit fallback:
 * six successive `replace` passes, each putting a backslash before one of
 * the characters `_ * [ ] ( )`.
 */
module Markdown {

  /** The characters the escape guards; the backslash itself is not one of them. */
  predicate Special(c: char)
  {
    c == '_' || c == '*' || c == '[' || c == ']' || c == '(' || c == ')'
  }

  /** One `replace(c, "\\" + c)` pass over the whole string. */
  function ReplaceChar(s: string, c: char): string
  {
    if s == [] then [] else (if s[0] == c then ['\\', c] else [s[0]]) + ReplaceChar(s[1..], c)
  }

  /** The chain as written: underscore, star, brackets, parentheses, in that order. */
  function EscapeChain(s: string): string
  {
    ReplaceChar(ReplaceChar(ReplaceChar(ReplaceChar(ReplaceChar(ReplaceChar(s, '_'), '*'), '['), ']'), '('), ')')
  }

  /** The escape of one character. */
  function EscapeOne(c: char): string
  {
    if Special(c) then ['\\', c] else [c]
  }

  /** The escape character by character: the reference the chain is measured against. */
  function Escape(s: string): string
  {
    if s == [] then [] else EscapeOne(s[0]) + Escape(s[1..])
  }

  /** The number of guarded characters in `s`. */
  function SpecialCount(s: string): nat
  {
    if s == [] then 0 else (if Special(s[0]) then 1 else 0) + SpecialCount(s[1..])
  }

  /** Drop the backslash in front of every guarded character. */
  function Unescape(t: string): string
  {
    if t == [] then []
    else if |t| >= 2 && t[0] == '\\' && Special(t[1]) then [t[1]] + Unescape(t[2..])
    else [t[0]] + Unescape(t[1..])
  }

  // ---------------------------------------------------------------------------
  // The chain is the per-character escape

  lemma {:induction false} ReplaceAppend(a: string, b: string, c: char)
    ensures ReplaceChar(a + b, c) == ReplaceChar(a, c) + ReplaceChar(b, c)
  {
    if a == [] {
      assert a + b == b;
    } else {
      assert (a + b)[1..] == a[1..] + b;
      ReplaceAppend(a[1..], b, c);
    }
  }

  lemma {:induction false} ReplaceAbsent(s: string, c: char)
    requires c !in s
    ensures ReplaceChar(s, c) == s
  {
    if s != [] {
      ReplaceAbsent(s[1..], c);
    }
  }

  lemma ReplaceSingle(x: char, c: char)
    ensures ReplaceChar([x], c) == if x == c then ['\\', c] else [x]
  {
    assert [x][1..] == [];
  }

  /** The chain treats a one-character string as the per-character escape does. */
  lemma ChainOne(x: char)
    ensures EscapeChain([x]) == EscapeOne(x)
  {
    var r1 := ReplaceChar([x], '_');
    ReplaceSingle(x, '_');
    var r2 := ReplaceChar(r1, '*');
    if x == '*' { ReplaceSingle(x, '*'); } else { ReplaceAbsent(r1, '*'); }
    var r3 := ReplaceChar(r2, '[');
    if x == '[' { ReplaceSingle(x, '['); } else { ReplaceAbsent(r2, '['); }
    var r4 := ReplaceChar(r3, ']');
    if x == ']' { ReplaceSingle(x, ']'); } else { ReplaceAbsent(r3, ']'); }
    var r5 := ReplaceChar(r4, '(');
    if x == '(' { ReplaceSingle(x, '('); } else { ReplaceAbsent(r4, '('); }
    var r6 := ReplaceChar(r5, ')');
    if x == ')' { ReplaceSingle(x, ')'); } else { ReplaceAbsent(r5, ')'); }
  }

  lemma ChainAppend(a: string, b: string)
    ensures EscapeChain(a + b) == EscapeChain(a) + EscapeChain(b)
  {
    ReplaceAppend(a, b, '_');
    var a1, b1 := ReplaceChar(a, '_'), ReplaceChar(b, '_');
    ReplaceAppend(a1, b1, '*');
    var a2, b2 := ReplaceChar(a1, '*'), ReplaceChar(b1, '*');
    ReplaceAppend(a2, b2, '[');
    var a3, b3 := ReplaceChar(a2, '['), ReplaceChar(b2, '[');
    ReplaceAppend(a3, b3, ']');
    var a4, b4 := ReplaceChar(a3, ']'), ReplaceChar(b3, ']');
    ReplaceAppend(a4, b4, '(');
    var a5, b5 := ReplaceChar(a4, '('), ReplaceChar(b4, '(');
    ReplaceAppend(a5, b5, ')');
  }

  /**
   * The six passes never see each other's backslashes as work to do, so the
   * chain escapes every guarded character exactly once.
   */
  lemma {:induction false} ChainIsPerChar(s: string)
    ensures EscapeChain(s) == Escape(s)
  {
    if s == [] {
      assert EscapeChain(s) == [];
    } else {
      assert s == [s[0]] + s[1..];
      ChainAppend([s[0]], s[1..]);
      ChainOne(s[0]);
      ChainIsPerChar(s[1..]);
    }
  }

  // ---------------------------------------------------------------------------
  // Properties of the escape

  /** One extra character per guarded character. */
  lemma {:induction false} EscapeLength(s: string)
    ensures |EscapeChain(s)| == |s| + SpecialCount(s)
  {
    ChainIsPerChar(s);
    EscapedLength(s);
  }

  lemma {:induction false} EscapedLength(s: string)
    ensures |Escape(s)| == |s| + SpecialCount(s)
  {
    if s != [] {
      EscapedLength(s[1..]);
    }
  }

  /** An escaped string never starts with a guarded character. */
  lemma EscapeHead(s: string)
    requires Escape(s) != []
    ensures !Special(Escape(s)[0])
  {
  }

  /** Every guarded character of the output has a backslash just before it. */
  lemma {:induction false} SpecialsEscaped(s: string)
    ensures var t := EscapeChain(s);
      forall i :: 0 <= i < |t| && Special(t[i]) ==> 0 < i && t[i - 1] == '\\'
  {
    ChainIsPerChar(s);
    SpecialsPreceded(s);
  }

  lemma {:induction false} SpecialsPreceded(s: string)
    ensures forall i :: 0 <= i < |Escape(s)| && Special(Escape(s)[i]) ==> 0 < i && Escape(s)[i - 1] == '\\'
  {
    if s != [] {
      var head := EscapeOne(s[0]);
      var rest := Escape(s[1..]);
      SpecialsPreceded(s[1..]);
      assert Escape(s) == head + rest;
      if rest != [] {
        EscapeHead(s[1..]);
      }
      forall i | 0 <= i < |Escape(s)| && Special(Escape(s)[i])
        ensures 0 < i && Escape(s)[i - 1] == '\\'
      {
        if i >= |head| {
          assert Escape(s)[i] == rest[i - |head|];
          if i > |head| {
            assert Escape(s)[i - 1] == rest[i - 1 - |head|];
          }
        }
      }
    }
  }

  /**
   * Removing the added backslashes gives the input back: every other
   * character, a backslash of the input included, is kept and in order.
   */
  lemma {:induction false} EscapeRoundTrip(s: string)
    ensures Unescape(EscapeChain(s)) == s
  {
    ChainIsPerChar(s);
    UnescapeEscape(s);
  }

  lemma {:induction false} UnescapeEscape(s: string)
    ensures Unescape(Escape(s)) == s
  {
    if s != [] {
      var x := s[0];
      var rest := Escape(s[1..]);
      UnescapeEscape(s[1..]);
      if Special(x) {
        assert Escape(s) == ['\\', x] + rest;
        assert (['\\', x] + rest)[2..] == rest;
      } else {
        assert Escape(s) == [x] + rest;
        assert ([x] + rest)[1..] == rest;
        if rest != [] {
          EscapeHead(s[1..]);
        }
      }
      assert s == [x] + s[1..];
    }
  }
}
