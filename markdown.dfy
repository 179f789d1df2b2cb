/**
 * The Markdown escaper nested in `generate_lesson_from_text`: sixteen global
 * `str.replace` passes, one per special character, backslash first.
 */
module Markdown {

  /** The characters escaped, in the order the loop visits them. */
  const SpecialChars: string := "\\`*_{}[]()#+-.!|"

  predicate IsSpecial(c: char) {
    c in SpecialChars
  }

  /** Python's `s.replace(target, replacement)` for a one-character `target`: every occurrence, left to right. */
  function ReplaceChar(s: string, target: char, replacement: string): (r: string)
    ensures target !in s ==> r == s
  {
    if s == [] then []
    else (if s[0] == target then replacement else [s[0]]) + ReplaceChar(s[1..], target, replacement)
  }

  /** Puts one backslash in front of every character of `s` that occurs in `cs`, in a single left-to-right pass. */
  function EscapeWith(s: string, cs: string): string {
    if s == [] then []
    else (if s[0] in cs then ['\\', s[0]] else [s[0]]) + EscapeWith(s[1..], cs)
  }

  /** The per-character specification of the escaper. */
  function Escape(s: string): string {
    EscapeWith(s, SpecialChars)
  }

  /** Number of special characters in `s`. */
  function CountSpecial(s: string): nat {
    if s == [] then 0 else (if IsSpecial(s[0]) then 1 else 0) + CountSpecial(s[1..])
  }

  /** Deletes the backslash in front of each special character. */
  function Unescape(t: string): string {
    if t == [] then []
    else if |t| >= 2 && t[0] == '\\' && IsSpecial(t[1]) then [t[1]] + Unescape(t[2..])
    else [t[0]] + Unescape(t[1..])
  }

  /** Every special character of `t` is preceded by a backslash that belongs to it alone. */
  predicate WellEscaped(t: string) {
    if t == [] then true
    else if t[0] == '\\' then |t| >= 2 && IsSpecial(t[1]) && WellEscaped(t[2..])
    else !IsSpecial(t[0]) && WellEscaped(t[1..])
  }

  lemma SpecialCharsDistinct()
    ensures |SpecialChars| == 16 && SpecialChars[0] == '\\'
    ensures forall i, j :: 0 <= i < j < |SpecialChars| ==> SpecialChars[i] != SpecialChars[j]
  {
  }

  /** Each pass meets a character no earlier pass escaped, and only the first pass handles the backslash. */
  lemma SpecialCharFresh(i: nat)
    requires i < |SpecialChars|
    ensures SpecialChars[i] !in SpecialChars[..i]
    ensures i > 0 ==> SpecialChars[i] != '\\'
  {
    SpecialCharsDistinct();
  }

  lemma {:induction false} ReplaceCharConcat(a: string, b: string, target: char, replacement: string)
    ensures ReplaceChar(a + b, target, replacement) == ReplaceChar(a, target, replacement) + ReplaceChar(b, target, replacement)
  {
    if a == [] {
      assert a + b == b;
    } else {
      var head := if a[0] == target then replacement else [a[0]];
      assert (a + b)[0] == a[0];
      assert (a + b)[1..] == a[1..] + b;
      ReplaceCharConcat(a[1..], b, target, replacement);
      assert ReplaceChar(a + b, target, replacement) == head + ReplaceChar(a[1..] + b, target, replacement);
    }
  }

  /**
   * One `replace` pass over text already escaped for `cs` escapes `c` as well, provided
   * `c` was not escaped before and is not the backslash that earlier passes inserted.
   */
  lemma {:induction false} ReplaceExtendsEscape(s: string, cs: string, c: char)
    requires c !in cs
    requires cs != [] ==> c != '\\'
    ensures ReplaceChar(EscapeWith(s, cs), c, ['\\', c]) == EscapeWith(s, cs + [c])
  {
    if s != [] {
      var head := if s[0] in cs then ['\\', s[0]] else [s[0]];
      ReplaceCharConcat(head, EscapeWith(s[1..], cs), c, ['\\', c]);
      ReplaceExtendsEscape(s[1..], cs, c);
      if s[0] in cs {
        assert ReplaceChar(head, c, ['\\', c]) == head by {
          assert head[1..] == [s[0]];
        }
      }
    }
  }

  lemma EscapeWithNothing(s: string)
    ensures EscapeWith(s, []) == s
  {
  }

  /**
   * The sequential loop of `escape_markdown`: one global `replace` per special character,
   * in list order. It equals the single per-character pass `Escape`.
   */
  method EscapeMarkdown(text: string) returns (r: string)
    ensures r == Escape(text)
  {
    r := text;
    EscapeWithNothing(text);
    for i := 0 to |SpecialChars|
      invariant r == EscapeWith(text, SpecialChars[..i])
    {
      var c := SpecialChars[i];
      SpecialCharFresh(i);
      ReplaceExtendsEscape(text, SpecialChars[..i], c);
      r := ReplaceChar(r, c, ['\\', c]);
      assert SpecialChars[..i + 1] == SpecialChars[..i] + [c];
    }
    assert SpecialChars[..|SpecialChars|] == SpecialChars;
  }

  lemma {:induction false} EscapeConcat(a: string, b: string)
    ensures Escape(a + b) == Escape(a) + Escape(b)
  {
    if a == [] {
      assert a + b == b;
    } else {
      assert (a + b)[1..] == a[1..] + b;
      EscapeConcat(a[1..], b);
    }
  }

  lemma {:induction false} CountSpecialConcat(a: string, b: string)
    ensures CountSpecial(a + b) == CountSpecial(a) + CountSpecial(b)
  {
    if a == [] {
      assert a + b == b;
    } else {
      assert (a + b)[1..] == a[1..] + b;
      CountSpecialConcat(a[1..], b);
    }
  }

  /** Escaping lengthens the text by exactly one backslash per special character. */
  lemma {:induction false} EscapeLength(s: string)
    ensures |Escape(s)| == |s| + CountSpecial(s)
  {
    if s != [] {
      EscapeLength(s[1..]);
    }
  }

  /**
   * The per-character reading of the escaper: the character at index `i` of the input lands
   * at index `i + CountSpecial(s[..i])` of the output, preceded there by a backslash exactly
   * when it is special.
   */
  lemma EscapeAt(s: string, i: nat)
    requires i < |s|
    ensures var j := i + CountSpecial(s[..i]);
      if IsSpecial(s[i]) then j + 1 < |Escape(s)| && Escape(s)[j] == '\\' && Escape(s)[j + 1] == s[i]
      else j < |Escape(s)| && Escape(s)[j] == s[i]
  {
    assert s == s[..i] + s[i..];
    EscapeConcat(s[..i], s[i..]);
    EscapeLength(s[..i]);
    EscapeLength(s[i..]);
  }

  /** Each special character turns into two special characters: itself and its backslash. */
  lemma {:induction false} CountSpecialOfEscape(s: string)
    ensures CountSpecial(Escape(s)) == 2 * CountSpecial(s)
  {
    if s != [] {
      SpecialCharsDistinct();
      var head := if IsSpecial(s[0]) then ['\\', s[0]] else [s[0]];
      CountSpecialConcat(head, Escape(s[1..]));
      CountSpecialOfEscape(s[1..]);
      if IsSpecial(s[0]) {
        assert head[1..] == [s[0]];
      }
    }
  }

  /** Escaping is not idempotent: a text with a special character changes when escaped twice. */
  lemma EscapeNotIdempotent(s: string)
    requires CountSpecial(s) > 0
    ensures Escape(Escape(s)) != Escape(s)
  {
    EscapeLength(s);
    EscapeLength(Escape(s));
    CountSpecialOfEscape(s);
  }

  /** Deleting the backslash in front of each special character gives back the original text. */
  lemma {:induction false} UnescapeEscape(s: string)
    ensures Unescape(Escape(s)) == s
  {
    if s != [] {
      SpecialCharsDistinct();
      var rest := Escape(s[1..]);
      UnescapeEscape(s[1..]);
      if IsSpecial(s[0]) {
        assert Escape(s) == ['\\', s[0]] + rest;
        assert (['\\', s[0]] + rest)[2..] == rest;
      } else {
        assert Escape(s) == [s[0]] + rest;
        assert ([s[0]] + rest)[1..] == rest;
      }
    }
  }

  /** Escaped text is well formed: no special character is left bare. */
  lemma {:induction false} EscapeWellEscaped(s: string)
    ensures WellEscaped(Escape(s))
  {
    if s != [] {
      SpecialCharsDistinct();
      var rest := Escape(s[1..]);
      EscapeWellEscaped(s[1..]);
      if IsSpecial(s[0]) {
        assert (['\\', s[0]] + rest)[2..] == rest;
      } else {
        assert ([s[0]] + rest)[1..] == rest;
      }
    }
  }

  /** Conversely every well-formed text is the escaping of its unescaping. */
  lemma {:induction false} EscapeUnescape(t: string)
    requires WellEscaped(t)
    ensures Escape(Unescape(t)) == t
  {
    if t != [] {
      SpecialCharsDistinct();
      if t[0] == '\\' {
        EscapeUnescape(t[2..]);
        assert t == ['\\', t[1]] + t[2..];
      } else {
        EscapeUnescape(t[1..]);
        assert t == [t[0]] + t[1..];
      }
    }
  }

  /** A text without special characters is left as it is. */
  lemma {:induction false} EscapePlain(s: string)
    requires forall k :: 0 <= k < |s| ==> !IsSpecial(s[k])
    ensures Escape(s) == s
  {
    if s != [] {
      EscapePlain(s[1..]);
      assert [s[0]] + s[1..] == s;
    }
  }

  /** One character on its own: a special one gains its backslash, any other stays as it is. */
  lemma EscapeChar(c: char)
    ensures Escape([c]) == if IsSpecial(c) then ['\\', c] else [c]
  {
    assert [c][1..] == [];
    assert Escape([c]) == (if c in SpecialChars then ['\\', c] else [c]) + EscapeWith([], SpecialChars);
  }

  /** Three ordinary characters around `*` and `_`: the two special ones gain a backslash each. */
  lemma EscapeAroundSpecials(x: char, y: char, z: char)
    requires !IsSpecial(x) && !IsSpecial(y) && !IsSpecial(z)
    ensures Escape([x] + ['*'] + [y] + ['_'] + [z]) == [x] + ['\\', '*'] + [y] + ['\\', '_'] + [z]
  {
    EscapeChar(x);
    EscapeChar('*');
    EscapeChar(y);
    EscapeChar('_');
    EscapeChar(z);
    EscapeConcat([x], ['*']);
    EscapeConcat([x] + ['*'], [y]);
    EscapeConcat([x] + ['*'] + [y], ['_']);
    EscapeConcat([x] + ['*'] + [y] + ['_'], [z]);
  }

  /** `a*b_c` is escaped to `a\*b\_c`. */
  lemma EscapeExample()
    ensures Escape(['a'] + ['*'] + ['b'] + ['_'] + ['c']) == ['a'] + ['\\', '*'] + ['b'] + ['\\', '_'] + ['c']
  {
    EscapeAroundSpecials('a', 'b', 'c');
  }

}
