/**
 * The two PHP string functions applied to every validated field:
 * `htmlspecialchars` with PHP 8.1's default flags (ENT_QUOTES, so both
 * quote characters are escaped) and `trim` with its default character list.
 */
module PhpStrings {

  /** A character that may end up inside markup: what the escaping must remove. */
  predicate IsMarkup(c: char) {
    c == '<' || c == '>' || c == '"' || c == '\''
  }

  /** A character `htmlspecialchars` rewrites: the markup characters and `&`. */
  predicate IsSpecial(c: char) {
    c == '&' || IsMarkup(c)
  }

  /** True when no character of `s` is a markup character. */
  predicate NoMarkup(s: string) {
    forall k :: 0 <= k < |s| ==> !IsMarkup(s[k])
  }

  /** The entity `htmlspecialchars` writes for one character. */
  function EscapeChar(c: char): (r: string)
    ensures |r| >= 1 && NoMarkup(r)
    ensures r == [c] <==> !IsSpecial(c)
    ensures IsSpecial(c) ==> r[0] == '&' && r[|r| - 1] == ';' && |r| >= 4
  {
    match c
    case '&' => "&amp;"
    case '<' => "&lt;"
    case '>' => "&gt;"
    case '"' => "&quot;"
    case '\'' => "&#039;"
    case _ => [c]
  }

  /** PHP `htmlspecialchars($s)`: every special character replaced by its entity. */
  function Escape(s: string): (r: string)
    ensures NoMarkup(r)
    ensures |s| <= |r|
    decreases |s|
  {
    if |s| == 0 then [] else EscapeChar(s[0]) + Escape(s[1..])
  }

  /**
   * PHP `htmlspecialchars_decode($s, ENT_QUOTES)`: the five entities back to
   * their characters. It is not called by the search code; it is the inverse
   * against which the escaping is checked.
   */
  function Unescape(s: string): string
    decreases |s|
  {
    if |s| == 0 then []
    else if "&amp;" <= s then ['&'] + Unescape(s[5..])
    else if "&lt;" <= s then ['<'] + Unescape(s[4..])
    else if "&gt;" <= s then ['>'] + Unescape(s[4..])
    else if "&quot;" <= s then ['"'] + Unescape(s[6..])
    else if "&#039;" <= s then ['\''] + Unescape(s[6..])
    else [s[0]] + Unescape(s[1..])
  }

  /** Escaping distributes over concatenation. */
  lemma {:induction false} EscapeAppend(a: string, b: string)
    ensures Escape(a + b) == Escape(a) + Escape(b)
    decreases |a|
  {
    if |a| > 0 {
      assert (a + b)[0] == a[0] && (a + b)[1..] == a[1..] + b;
      EscapeAppend(a[1..], b);
      calc {
        Escape(a + b);
        EscapeChar(a[0]) + Escape(a[1..] + b);
        EscapeChar(a[0]) + (Escape(a[1..]) + Escape(b));
        (EscapeChar(a[0]) + Escape(a[1..])) + Escape(b);
      }
    } else {
      assert a + b == b;
    }
  }

  /** Decoding one entity followed by anything yields its character followed by the decoded rest. */
  lemma UnescapeEntity(c: char, rest: string)
    ensures Unescape(EscapeChar(c) + rest) == [c] + Unescape(rest)
  {
    var s := EscapeChar(c) + rest;
    if c == '&' {
      assert "&amp;" <= s && s[5..] == rest;
    } else if c == '<' {
      assert !("&amp;" <= s) by { assert s[1] == 'l'; }
      assert "&lt;" <= s && s[4..] == rest;
    } else if c == '>' {
      assert !("&amp;" <= s) by { assert s[1] == 'g'; }
      assert !("&lt;" <= s) by { assert s[1] == 'g'; }
      assert "&gt;" <= s && s[4..] == rest;
    } else if c == '"' {
      assert !("&amp;" <= s) by { assert s[1] == 'q'; }
      assert !("&lt;" <= s) by { assert s[1] == 'q'; }
      assert !("&gt;" <= s) by { assert s[1] == 'q'; }
      assert "&quot;" <= s && s[6..] == rest;
    } else if c == '\'' {
      assert !("&amp;" <= s) by { assert s[1] == '#'; }
      assert !("&lt;" <= s) by { assert s[1] == '#'; }
      assert !("&gt;" <= s) by { assert s[1] == '#'; }
      assert !("&quot;" <= s) by { assert s[1] == '#'; }
      assert "&#039;" <= s && s[6..] == rest;
    } else {
      assert s[0] == c && s[1..] == rest;
    }
  }

  /** Escaping loses nothing: decoding the escaped text gives back the original. */
  lemma {:induction false} UnescapeEscape(s: string)
    ensures Unescape(Escape(s)) == s
    decreases |s|
  {
    if |s| > 0 {
      UnescapeEntity(s[0], Escape(s[1..]));
      UnescapeEscape(s[1..]);
      assert [s[0]] + s[1..] == s;
    }
  }

  /** Escaping strictly lengthens any text that holds a special character. */
  lemma {:induction false} EscapeLengthens(s: string, i: int)
    requires 0 <= i < |s| && IsSpecial(s[i])
    ensures |Escape(s)| > |s|
    decreases |s|
  {
    if i > 0 {
      EscapeLengthens(s[1..], i - 1);
    }
  }

  /** Escaping leaves a text unchanged exactly when it holds no special character. */
  lemma {:induction false} EscapeFixedPoints(s: string)
    ensures Escape(s) == s <==> forall k :: 0 <= k < |s| ==> !IsSpecial(s[k])
    decreases |s|
  {
    if forall k :: 0 <= k < |s| ==> !IsSpecial(s[k]) {
      if |s| > 0 {
        assert forall k :: 0 <= k < |s[1..]| ==> !IsSpecial(s[1..][k]) by {
          forall k | 0 <= k < |s[1..]| ensures !IsSpecial(s[1..][k]) {
            assert s[1..][k] == s[k + 1];
          }
        }
        EscapeFixedPoints(s[1..]);
        assert [s[0]] + s[1..] == s;
      }
    } else {
      var i :| 0 <= i < |s| && IsSpecial(s[i]);
      EscapeLengthens(s, i);
    }
  }

  /**
   * Escaping is applied exactly once: escaping an already escaped text that
   * held a special character changes it again, so the two are distinguishable.
   */
  lemma DoubleEscapeDiffers(s: string, i: int)
    requires 0 <= i < |s| && IsSpecial(s[i])
    ensures Escape(Escape(s)) != Escape(s)
  {
    var k := EntityStart(s, i);
    EscapeLengthens(Escape(s), k);
  }

  /** A special character at `i` puts an `&` into the escaped text, at the start of its entity. */
  lemma EntityStart(s: string, i: int) returns (k: int)
    requires 0 <= i < |s| && IsSpecial(s[i])
    ensures 0 <= k < |Escape(s)| && Escape(s)[k] == '&'
  {
    EscapeAppend(s[..i], s[i..]);
    assert s == s[..i] + s[i..];
    assert Escape(s[i..]) == EscapeChar(s[i]) + Escape(s[i + 1..]);
    k := |Escape(s[..i])|;
  }

  /** The characters PHP's `trim` strips by default: " \t\n\r\0\x0B". */
  predicate IsTrimmable(c: char) {
    c == ' ' || c == '\t' || c == '\n' || c == '\r' || c == '\0' || c == '\U{000B}'
  }

  /** `ltrim`: drops the longest prefix of trimmable characters. */
  function TrimStart(s: string): (r: string)
    ensures |r| <= |s| && r == s[|s| - |r|..]
    ensures forall k :: 0 <= k < |s| - |r| ==> IsTrimmable(s[k])
    ensures |r| > 0 ==> !IsTrimmable(r[0])
    decreases |s|
  {
    if |s| > 0 && IsTrimmable(s[0]) then TrimStart(s[1..]) else s
  }

  /** `rtrim`: drops the longest suffix of trimmable characters. */
  function TrimEnd(s: string): (r: string)
    ensures |r| <= |s| && r == s[..|r|]
    ensures forall k :: |r| <= k < |s| ==> IsTrimmable(s[k])
    ensures |r| > 0 ==> !IsTrimmable(r[|r| - 1])
    decreases |s|
  {
    if |s| > 0 && IsTrimmable(s[|s| - 1]) then TrimEnd(s[..|s| - 1]) else s
  }

  /** PHP `trim($s)`. */
  function Trim(s: string): string {
    TrimEnd(TrimStart(s))
  }

  /**
   * `trim` returns the slice of its input between the longest trimmable prefix
   * and the longest trimmable suffix: the result is a contiguous piece of the
   * input, everything cut off is trimmable, and the result starts and ends with
   * a kept character.
   */
  lemma TrimSlice(s: string) returns (i: int, j: int)
    ensures i == |s| - |TrimStart(s)| && j == i + |Trim(s)|
    ensures 0 <= i <= j <= |s| && Trim(s) == s[i..j]
    ensures forall k :: 0 <= k < i ==> IsTrimmable(s[k])
    ensures forall k :: j <= k < |s| ==> IsTrimmable(s[k])
    ensures |Trim(s)| > 0 ==> !IsTrimmable(Trim(s)[0]) && !IsTrimmable(Trim(s)[|Trim(s)| - 1])
  {
    var t := TrimStart(s);
    i, j := |s| - |t|, |s| - |t| + |Trim(s)|;
    SliceOfSuffix(s, t, TrimEnd(t));
    if |Trim(s)| > 0 {
      assert Trim(s)[0] == t[0];
    }
  }

  /** A prefix `u` of the suffix `t` of `s` is the slice of `s` it covers, and what `s` holds past it is what `t` holds past it. */
  lemma SliceOfSuffix(s: string, t: string, u: string)
    requires |t| <= |s| && t == s[|s| - |t|..]
    requires |u| <= |t| && u == t[..|u|]
    requires forall k :: |u| <= k < |t| ==> IsTrimmable(t[k])
    ensures u == s[|s| - |t|..|s| - |t| + |u|]
    ensures forall k :: |s| - |t| + |u| <= k < |s| ==> IsTrimmable(s[k])
  {
    var i := |s| - |t|;
    forall k | i + |u| <= k < |s| ensures IsTrimmable(s[k]) {
      assert s[k] == t[k - i];
    }
  }

  /** Trimming twice is trimming once. */
  lemma TrimIdempotent(s: string)
    ensures Trim(Trim(s)) == Trim(s)
  {
    var t := Trim(s);
    if |t| > 0 {
      assert TrimStart(t) == t;
      assert TrimEnd(t) == t;
    }
  }

  /** `ltrim` and `htmlspecialchars` commute. */
  lemma {:induction false} TrimStartEscape(s: string)
    ensures TrimStart(Escape(s)) == Escape(TrimStart(s))
    decreases |s|
  {
    if |s| > 0 {
      var e := Escape(s);
      assert e == EscapeChar(s[0]) + Escape(s[1..]);
      if IsTrimmable(s[0]) {
        assert EscapeChar(s[0]) == [s[0]];
        assert e[0] == s[0] && e[1..] == Escape(s[1..]);
        assert TrimStart(e) == TrimStart(Escape(s[1..]));
        assert TrimStart(s) == TrimStart(s[1..]);
        TrimStartEscape(s[1..]);
      } else {
        assert e[0] == EscapeChar(s[0])[0];
        assert !IsTrimmable(e[0]);
        assert TrimStart(e) == e;
        assert TrimStart(s) == s;
      }
    }
  }

  /** Escaping a text with one more character appends that character's entity. */
  lemma EscapeSnoc(p: string, c: char)
    ensures Escape(p + [c]) == Escape(p) + EscapeChar(c)
  {
    EscapeAppend(p, [c]);
    assert Escape([c]) == EscapeChar(c) + Escape([]);
  }

  /** `rtrim` returns `x` of `x + w` when `w` is all trimmable and `x` does not end with a trimmable character. */
  lemma {:induction false} TrimEndOf(x: string, w: string)
    requires forall k :: 0 <= k < |w| ==> IsTrimmable(w[k])
    requires |x| > 0 ==> !IsTrimmable(x[|x| - 1])
    ensures TrimEnd(x + w) == x
    decreases |w|
  {
    if |w| > 0 {
      var v := w[..|w| - 1];
      assert (x + w)[..|x + w| - 1] == x + v;
      TrimEndOf(x, v);
    } else {
      assert x + w == x;
    }
  }

  /** An escaped non-empty text ends with its last character's entity, so never with a trimmable character when that character is not. */
  lemma EscapeLast(x: string)
    requires |x| > 0 && !IsTrimmable(x[|x| - 1])
    ensures |Escape(x)| > 0 && !IsTrimmable(Escape(x)[|Escape(x)| - 1])
  {
    var p, c := x[..|x| - 1], x[|x| - 1];
    assert x == p + [c];
    EscapeSnoc(p, c);
    var e := EscapeChar(c);
    assert Escape(x)[|Escape(x)| - 1] == e[|e| - 1];
  }

  /** `rtrim` and `htmlspecialchars` commute. */
  lemma TrimEndEscape(s: string)
    ensures TrimEnd(Escape(s)) == Escape(TrimEnd(s))
  {
    var x := TrimEnd(s);
    var w := s[|x|..];
    TrailingBlanks(s, x, w);
    EscapeKeepsTrailingBlanks(x, w);
  }

  /** What `rtrim` drops from `s` is a run of trimmable, hence not special, characters. */
  lemma TrailingBlanks(s: string, x: string, w: string)
    requires x == TrimEnd(s) && w == s[|x|..]
    ensures s == x + w
    ensures forall k :: 0 <= k < |w| ==> IsTrimmable(w[k]) && !IsSpecial(w[k])
    ensures |x| > 0 ==> !IsTrimmable(x[|x| - 1])
  {
    forall k | 0 <= k < |w| ensures IsTrimmable(w[k]) {
      assert w[k] == s[|x| + k];
    }
  }

  /** A text without special characters escapes to itself. */
  lemma {:induction false} EscapePlain(w: string)
    requires forall k :: 0 <= k < |w| ==> !IsSpecial(w[k])
    ensures Escape(w) == w
    decreases |w|
  {
    if |w| > 0 {
      forall k | 0 <= k < |w| - 1 ensures !IsSpecial(w[1..][k]) {
        assert w[1..][k] == w[k + 1];
      }
      EscapePlain(w[1..]);
      assert w == [w[0]] + w[1..];
    }
  }

  /** Escaping a kept text followed by trimmable characters, then trimming, leaves the escaped kept text. */
  lemma EscapeKeepsTrailingBlanks(x: string, w: string)
    requires forall k :: 0 <= k < |w| ==> IsTrimmable(w[k]) && !IsSpecial(w[k])
    requires |x| > 0 ==> !IsTrimmable(x[|x| - 1])
    ensures TrimEnd(Escape(x + w)) == Escape(x)
  {
    var e := Escape(x);
    assert Escape(x + w) == e + w by {
      EscapePlain(w);
      EscapeAppend(x, w);
    }
    assert |e| > 0 ==> !IsTrimmable(e[|e| - 1]) by {
      if |x| > 0 {
        EscapeLast(x);
      } else {
        assert e == [];
      }
    }
    TrimEndOf(e, w);
  }

  /**
   * `trim(htmlspecialchars($s))` equals `htmlspecialchars(trim($s))`: no entity
   * starts or ends with a trimmable character, so the order of the two calls
   * does not matter.
   */
  lemma TrimEscapeCommute(s: string)
    ensures Trim(Escape(s)) == Escape(Trim(s))
  {
    TrimStartEscape(s);
    TrimEndEscape(TrimStart(s));
  }

  /** Escaping maps the two texts PHP's `empty()` treats as empty, and only them, to themselves. */
  lemma EscapeEmptyText(t: string)
    ensures Escape(t) == "" <==> t == ""
    ensures Escape(t) == "0" <==> t == "0"
  {
    if |t| == 1 {
      assert Escape(t) == EscapeChar(t[0]);
    }
  }
}
