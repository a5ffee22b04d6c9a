/** The `escape` helper nested in `apology` (helpers.py). It rewrites a
    message for the memegen image URL by eight `str.replace` calls applied
    in a fixed order. */
module Apology {

  /** Python's `s.replace(old, new)` for a one-character `old`: every
      occurrence replaced, left to right. */
  function ReplaceChar(s: string, target: char, replacement: string): (r: string)
    ensures target !in replacement ==> target !in r
  {
    if |s| == 0 then ""
    else (if s[0] == target then replacement else [s[0]]) + ReplaceChar(s[1..], target, replacement)
  }

  lemma {:induction false} ReplaceCharDistributes(a: string, b: string, target: char, replacement: string)
    ensures ReplaceChar(a + b, target, replacement) == ReplaceChar(a, target, replacement) + ReplaceChar(b, target, replacement)
  {
    if |a| == 0 {
      assert a + b == b;
    } else {
      assert (a + b)[1..] == a[1..] + b;
      ReplaceCharDistributes(a[1..], b, target, replacement);
    }
  }

  /** `escape` as written: the replacements `-`→`--`, ` `→`-`, `_`→`__`,
      `?`→`~q`, `%`→`~p`, `#`→`~h`, `/`→`~s`, `"`→`''`, in this order. */
  function Escape(s: string): string {
    var s1 := ReplaceChar(s, '-', "--");
    var s2 := ReplaceChar(s1, ' ', "-");
    var s3 := ReplaceChar(s2, '_', "__");
    var s4 := ReplaceChar(s3, '?', "~q");
    var s5 := ReplaceChar(s4, '%', "~p");
    var s6 := ReplaceChar(s5, '#', "~h");
    var s7 := ReplaceChar(s6, '/', "~s");
    ReplaceChar(s7, '"', "''")
  }

  lemma EscapeDistributes(a: string, b: string)
    ensures Escape(a + b) == Escape(a) + Escape(b)
  {
    var s := a + b;
    ReplaceCharDistributes(a, b, '-', "--");
    var a1, b1 := ReplaceChar(a, '-', "--"), ReplaceChar(b, '-', "--");
    ReplaceCharDistributes(a1, b1, ' ', "-");
    var a2, b2 := ReplaceChar(a1, ' ', "-"), ReplaceChar(b1, ' ', "-");
    ReplaceCharDistributes(a2, b2, '_', "__");
    var a3, b3 := ReplaceChar(a2, '_', "__"), ReplaceChar(b2, '_', "__");
    ReplaceCharDistributes(a3, b3, '?', "~q");
    var a4, b4 := ReplaceChar(a3, '?', "~q"), ReplaceChar(b3, '?', "~q");
    ReplaceCharDistributes(a4, b4, '%', "~p");
    var a5, b5 := ReplaceChar(a4, '%', "~p"), ReplaceChar(b4, '%', "~p");
    ReplaceCharDistributes(a5, b5, '#', "~h");
    var a6, b6 := ReplaceChar(a5, '#', "~h"), ReplaceChar(b5, '#', "~h");
    ReplaceCharDistributes(a6, b6, '/', "~s");
    var a7, b7 := ReplaceChar(a6, '/', "~s"), ReplaceChar(b6, '/', "~s");
    ReplaceCharDistributes(a7, b7, '"', "''");
  }

  /** What `escape` does to one character. No replacement produces a
      character that a later replacement rewrites, so the eight passes act
      character by character. */
  function EscapeChar(c: char): (r: string)
    ensures ' ' !in r && '?' !in r && '%' !in r && '#' !in r && '/' !in r && '"' !in r
  {
    match c
    case '-' => "--"
    case ' ' => "-"
    case '_' => "__"
    case '?' => "~q"
    case '%' => "~p"
    case '#' => "~h"
    case '/' => "~s"
    case '"' => "''"
    case _ => [c]
  }

  /** Characters outside the eight are kept as they are. */
  lemma EscapeCharPlain(c: char)
    requires c !in "- _?%#/\""
    ensures EscapeChar(c) == [c]
  {
  }

  /** Reference definition: rewrite each character on its own. */
  function EscapeEach(s: string): (r: string)
    ensures ' ' !in r && '?' !in r && '%' !in r && '#' !in r && '/' !in r && '"' !in r
  {
    if |s| == 0 then "" else EscapeChar(s[0]) + EscapeEach(s[1..])
  }

  lemma ReplaceCharSingle(c: char, target: char, replacement: string)
    ensures ReplaceChar([c], target, replacement) == if c == target then replacement else [c]
  {
    assert [c][1..] == "";
  }

  lemma {:induction false} ReplaceCharIdentity(s: string, target: char, replacement: string)
    requires target !in s
    ensures ReplaceChar(s, target, replacement) == s
  {
    if |s| > 0 {
      assert s == [s[0]] + s[1..];
      ReplaceCharIdentity(s[1..], target, replacement);
    }
  }

  /** The eight replacements of `escape` in their order: pass `k` rewrites
      `Target(k)` to `Replacement(k)`. */
  function Target(k: nat): char
    requires k < 8
  {
    "- _?%#/\""[k]
  }

  function Replacement(k: nat): string
    requires k < 8
  {
    ["--", "-", "__", "~q", "~p", "~h", "~s", "''"][k]
  }

  /** Passes `lo` up to (not including) `hi`, applied in order. */
  function Passes(s: string, lo: nat, hi: nat): string
    requires lo <= hi <= 8
    decreases hi - lo
  {
    if lo == hi then s else Passes(ReplaceChar(s, Target(lo), Replacement(lo)), lo + 1, hi)
  }

  lemma EscapeIsPasses(s: string)
    ensures Escape(s) == Passes(s, 0, 8)
  {
  }

  /** Passes whose targets do not occur in a string leave it unchanged, so
      they can be skipped. */
  lemma {:induction false} PassesSkip(s: string, lo: nat, mid: nat, hi: nat)
    requires lo <= mid <= hi <= 8
    requires forall k :: lo <= k < mid ==> Target(k) !in s
    ensures Passes(s, lo, hi) == Passes(s, mid, hi)
    decreases mid - lo
  {
    if lo < mid {
      ReplaceCharIdentity(s, Target(lo), Replacement(lo));
      PassesSkip(s, lo + 1, mid, hi);
    }
  }

  /** Pass `k` rewrites its own target, and nothing an earlier or later
      pass looks for is in the way: the targets are distinct and no
      replacement holds the target of a later pass. */
  lemma PassOrder(k: nat)
    requires k < 8
    ensures forall j :: 0 <= j < k ==> Target(j) != Target(k)
    ensures forall j :: k < j < 8 ==> Target(j) !in Replacement(k)
    ensures EscapeChar(Target(k)) == Replacement(k)
  {
  }

  lemma EscapeOneChar(c: char)
    ensures Escape([c]) == EscapeChar(c)
  {
    EscapeIsPasses([c]);
    if k :| 0 <= k < 8 && Target(k) == c {
      PassOrder(k);
      PassesSkip([c], 0, k, 8);
      ReplaceCharSingle(c, Target(k), Replacement(k));
      PassesSkip(Replacement(k), k + 1, 8, 8);
    } else {
      PassesSkip([c], 0, 8, 8);
      EscapeCharPlain(c);
    }
  }

  /** The eight sequential passes equal the per-character rewrite: an input
      space becomes a single `-`, an input `-` becomes `--`, and so on. */
  lemma {:induction false} EscapeIsPerCharacter(s: string)
    ensures Escape(s) == EscapeEach(s)
  {
    if |s| == 0 {
    } else {
      assert s == [s[0]] + s[1..];
      EscapeDistributes([s[0]], s[1..]);
      EscapeOneChar(s[0]);
      EscapeIsPerCharacter(s[1..]);
    }
  }

  /** The escaped text carries no space, `?`, `%`, `#`, `/` or `"`: none of
      the characters that would break the image URL survives. */
  lemma EscapeIsUrlSafe(s: string)
    ensures var r := Escape(s);
      ' ' !in r && '?' !in r && '%' !in r && '#' !in r && '/' !in r && '"' !in r
  {
    EscapeIsPerCharacter(s);
  }

  /** The rewrite is not injective: the message `?` and the message `~q`
      escape to the same text, so a message cannot be recovered from it. */
  lemma EscapeNotInjective()
    ensures "?" != "~q" && Escape("?") == Escape("~q")
  {
    assert EscapeEach("?") == "~q" by {
      assert "?"[1..] == "";
    }
    assert EscapeEach("~q") == "~q" by {
      assert "~q"[1..] == "q" && "q"[1..] == "";
      EscapeCharPlain('~');
      EscapeCharPlain('q');
    }
    EscapeIsPerCharacter("?");
    EscapeIsPerCharacter("~q");
  }
}
