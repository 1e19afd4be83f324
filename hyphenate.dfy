/**
 * Camel-case CSS property names to kebab-case (transforms/hyphenateStyleName.ts).
 * The source is one conditional over two regular-expression replacements; each
 * replacement is a function here and the promised behaviour is proved as lemmas.
 */
module Hyphenate {
  import opened Text

  /** The character class `[A-Z]` of the source's regular expressions. */
  predicate IsUpper(c: char) {
    'A' <= c <= 'Z'
  }

  /** String.prototype.toLowerCase on a single character; only ASCII capitals reach it. */
  function ToLower(c: char): char {
    if IsUpper(c) then (c as int + 32) as char else c
  }

  /** `uppercaseCheck.test(s)` */
  predicate HasUpper(s: string) {
    exists i :: 0 <= i < |s| && IsUpper(s[i])
  }

  function CountUpper(s: string): nat {
    if s == [] then 0 else (if IsUpper(s[0]) then 1 else 0) + CountUpper(s[1..])
  }

  /** prefixAndLowerCase: the replacement text for one matched capital. */
  function PrefixAndLowerCase(c: char): (r: string)
    ensures |r| == 2 && r[0] == '-' && !IsUpper(r[1])
    ensures IsUpper(c) ==> 'a' <= r[1] <= 'z' && r[1] as int == c as int + 32
  {
    ['-', ToLower(c)]
  }

  /** `s.replace(/[A-Z]/g, prefixAndLowerCase)`: every capital, left to right. */
  function ReplaceUppercase(s: string): (r: string)
    ensures |s| <= |r| <= 2 * |s|
  {
    if s == [] then ""
    else (if IsUpper(s[0]) then PrefixAndLowerCase(s[0]) else [s[0]]) + ReplaceUppercase(s[1..])
  }

  /** `s.replace(/^ms-/, "-ms-")` */
  function ReplaceMsPrefix(s: string): (r: string)
    ensures !StartsWith(r, "ms-")
    ensures |r| == if StartsWith(s, "ms-") then |s| + 1 else |s|
    ensures StartsWith(s, "ms-") ==> r == "-" + s
    ensures !StartsWith(s, "ms-") ==> r == s
  {
    if StartsWith(s, "ms-") then
      var r := "-ms-" + s[3..];
      assert r[0] == '-';
      assert s == s[..3] + s[3..];
      r
    else s
  }

  /** The condition of the source's conditional expression. */
  predicate IsTransformed(s: string) {
    HasUpper(s) && !StartsWith(s, "--")
  }

  /** hyphenateStyleName */
  function HyphenateStyleName(s: string): (r: string)
    ensures !IsTransformed(s) ==> r == s
    ensures IsTransformed(s) ==> !HasUpper(r)
  {
    if IsTransformed(s) then
      ReplaceUppercaseHasNoUpper(s);
      ReplaceMsPrefix(ReplaceUppercase(s))
    else s
  }

  /** The replacement acts on each character on its own: it distributes over concatenation. */
  lemma {:induction false} ReplaceUppercaseAppend(a: string, b: string)
    ensures ReplaceUppercase(a + b) == ReplaceUppercase(a) + ReplaceUppercase(b)
  {
    if a == [] {
      assert a + b == b;
    } else {
      assert (a + b)[0] == a[0];
      assert (a + b)[1..] == a[1..] + b;
      ReplaceUppercaseAppend(a[1..], b);
    }
  }

  /** A capital becomes `-` and its lower-case letter; any other character stays. */
  lemma ReplaceUppercaseChar(c: char)
    ensures IsUpper(c) ==> ReplaceUppercase([c]) == ['-', ToLower(c)]
    ensures !IsUpper(c) ==> ReplaceUppercase([c]) == [c]
  {
    assert [c][1..] == [];
  }

  /** With nothing to match, the global replacement returns its input. */
  lemma {:induction false} ReplaceUppercaseIdentity(s: string)
    requires !HasUpper(s)
    ensures ReplaceUppercase(s) == s
  {
    if s != [] {
      assert !IsUpper(s[0]);
      assert !HasUpper(s[1..]) by {
        forall i | 0 <= i < |s[1..]| ensures !IsUpper(s[1..][i]) {
          assert s[1..][i] == s[i + 1];
        }
      }
      ReplaceUppercaseIdentity(s[1..]);
    }
  }

  /** No capital survives the replacement. */
  lemma {:induction false} ReplaceUppercaseHasNoUpper(s: string)
    ensures !HasUpper(ReplaceUppercase(s))
  {
    if s != [] {
      ReplaceUppercaseHasNoUpper(s[1..]);
      var head := if IsUpper(s[0]) then PrefixAndLowerCase(s[0]) else [s[0]];
      var tail := ReplaceUppercase(s[1..]);
      assert ReplaceUppercase(s) == head + tail;
      forall i | 0 <= i < |head + tail| ensures !IsUpper((head + tail)[i]) {
        if i >= |head| {
          assert (head + tail)[i] == tail[i - |head|];
        }
      }
    }
  }

  /** Each capital adds exactly one character (its `-`). */
  lemma {:induction false} ReplaceUppercaseLength(s: string)
    ensures |ReplaceUppercase(s)| == |s| + CountUpper(s)
  {
    if s != [] {
      ReplaceUppercaseLength(s[1..]);
    }
  }

  /** The first character of the replacement's output. */
  lemma ReplaceUppercaseHead(s: string)
    requires s != []
    ensures |ReplaceUppercase(s)| > 0
    ensures ReplaceUppercase(s)[0] == if IsUpper(s[0]) then '-' else s[0]
    ensures !IsUpper(s[0]) ==> ReplaceUppercase(s)[1..] == ReplaceUppercase(s[1..])
  {
  }

  /** The characters of the output at positions 1 and 2, when the input starts with lower-case letters. */
  lemma ReplaceUppercaseSecond(s: string)
    requires |s| >= 2 && !IsUpper(s[0])
    ensures |ReplaceUppercase(s)| >= 2 && ReplaceUppercase(s)[1] == ReplaceUppercase(s[1..])[0]
  {
    ReplaceUppercaseHead(s);
    ReplaceUppercaseHead(s[1..]);
  }

  lemma ReplaceUppercaseThird(s: string)
    requires |s| >= 3 && !IsUpper(s[0]) && !IsUpper(s[1])
    ensures |ReplaceUppercase(s)| >= 3 && ReplaceUppercase(s)[2] == ReplaceUppercase(s[2..])[0]
  {
    ReplaceUppercaseHead(s);
    ReplaceUppercaseSecond(s[1..]);
    assert s[1..][1..] == s[2..];
  }

  /** The `ms-` rewrite fires exactly when the input starts with `ms` followed by `-` or a capital. */
  lemma MsRewriteFires(s: string)
    ensures StartsWith(ReplaceUppercase(s), "ms-") <==>
              |s| >= 3 && s[0] == 'm' && s[1] == 's' && (s[2] == '-' || IsUpper(s[2]))
  {
    var t := ReplaceUppercase(s);
    StartsWithMs(t);
    if s == [] {
    } else if s[0] != 'm' {
      ReplaceUppercaseHead(s);
    } else if |s| == 1 {
      ReplaceUppercaseLength(s);
    } else if s[1] != 's' {
      ReplaceUppercaseSecond(s);
      ReplaceUppercaseHead(s[1..]);
    } else if |s| == 2 {
      ReplaceUppercaseLength(s);
      assert CountUpper(s) == 0 by {
        assert s[1..][1..] == [];
      }
    } else {
      MsPrefixChars(s);
    }
  }

  lemma StartsWithMs(t: string)
    ensures StartsWith(t, "ms-") <==> |t| >= 3 && t[0] == 'm' && t[1] == 's' && t[2] == '-'
  {
    if |t| >= 3 {
      assert t[..3][0] == t[0] && t[..3][1] == t[1] && t[..3][2] == t[2];
    }
  }

  /** Input starting with `ms`: the output keeps `ms`, and its third character is `-` for `-` or a capital. */
  lemma MsPrefixChars(s: string)
    requires |s| >= 3 && s[0] == 'm' && s[1] == 's'
    ensures var t := ReplaceUppercase(s);
            |t| >= 3 && t[0] == 'm' && t[1] == 's' && (t[2] == '-' <==> s[2] == '-' || IsUpper(s[2]))
  {
    ReplaceUppercaseHead(s);
    ReplaceUppercaseSecond(s);
    ReplaceUppercaseHead(s[1..]);
    ReplaceUppercaseThird(s);
    ReplaceUppercaseHead(s[2..]);
  }

  /** Input without a capital comes back unchanged. */
  lemma NoUpperUnchanged(s: string)
    requires !HasUpper(s)
    ensures HyphenateStyleName(s) == s
  {
  }

  /** Custom properties (`--name`) come back unchanged. */
  lemma CustomPropertyUnchanged(s: string)
    requires StartsWith(s, "--")
    ensures HyphenateStyleName(s) == s
  {
  }

  /** hyphenateStyleName(hyphenateStyleName(s)) == hyphenateStyleName(s). */
  lemma HyphenateStyleNameIdempotent(s: string)
    ensures HyphenateStyleName(HyphenateStyleName(s)) == HyphenateStyleName(s)
  {
  }

  /** In the transformed branch the output grows by one per capital, and by one more for `ms-`. */
  lemma HyphenateStyleNameLength(s: string)
    requires IsTransformed(s)
    ensures |HyphenateStyleName(s)| ==
              |s| + CountUpper(s) +
              (if |s| >= 3 && s[0] == 'm' && s[1] == 's' && (s[2] == '-' || IsUpper(s[2])) then 1 else 0)
  {
    ReplaceUppercaseLength(s);
    MsRewriteFires(s);
  }

  lemma NotCustomProperty(s: string)
    requires |s| > 0 && s[0] != '-'
    ensures !StartsWith(s, "--")
  {
  }

  /** A capital after a capital-free prefix becomes `-` and its lower-case letter. */
  lemma ReplaceAtCapital(a: string, c: char, b: string)
    requires !HasUpper(a) && IsUpper(c)
    ensures ReplaceUppercase(a + [c] + b) == a + ['-', ToLower(c)] + ReplaceUppercase(b)
  {
    ReplaceUppercaseAppend(a + [c], b);
    ReplaceUppercaseAppend(a, [c]);
    ReplaceUppercaseIdentity(a);
    ReplaceUppercaseChar(c);
  }

  /** The first capital, at `k`, becomes `-` and its lower-case letter. */
  lemma CapitalAt(s: string, k: nat)
    requires k < |s| && IsUpper(s[k]) && !HasUpper(s[..k])
    ensures ReplaceUppercase(s) == s[..k] + ['-', ToLower(s[k])] + ReplaceUppercase(s[k + 1..])
  {
    assert s == s[..k] + [s[k]] + s[k + 1..];
    ReplaceAtCapital(s[..k], s[k], s[k + 1..]);
  }

  /** An input whose only capital is at `k`. */
  lemma OneCapital(s: string, k: nat)
    requires k < |s| && IsUpper(s[k]) && !HasUpper(s[..k]) && !HasUpper(s[k + 1..])
    ensures ReplaceUppercase(s) == s[..k] + ['-', ToLower(s[k])] + s[k + 1..]
  {
    CapitalAt(s, k);
    ReplaceUppercaseIdentity(s[k + 1..]);
  }

  /** With its capitals replaced, an input that qualifies only has the `ms-` rewrite left. */
  lemma HyphenateReplaced(s: string, t: string)
    requires s != [] && s[0] != '-' && HasUpper(s) && ReplaceUppercase(s) == t
    ensures HyphenateStyleName(s) == ReplaceMsPrefix(t)
  {
    NotCustomProperty(s);
  }

  // The examples of the source's documentation comment. The facts about each literal
  // are gathered in a lemma of their own, which says nothing about the rewriting.

  lemma BackgroundColorParts(s: string)
    requires s == "backgroundColor"
    ensures |s| == 15 && s[0] == 'b'
    ensures !HasUpper(s[..10]) && IsUpper(s[10]) && !HasUpper(s[11..])
    ensures s[..10] + ['-', ToLower(s[10])] + s[11..] == "background-color"
    ensures ReplaceMsPrefix("background-color") == "background-color"
  {
    var t := "background-color";
    assert t[..3][0] == 'b';
  }

  /** `backgroundColor` becomes `background-color`. */
  lemma ExampleBackgroundColor(s: string)
    requires s == "backgroundColor"
    ensures HyphenateStyleName(s) == "background-color"
  {
    BackgroundColorParts(s);
    OneCapital(s, 10);
    HyphenateReplaced(s, "background-color");
  }

  lemma MozTransitionParts(s: string)
    requires s == "MozTransition"
    ensures |s| == 13 && s[0] == 'M' && IsUpper(s[0]) && !HasUpper(s[..0])
    ensures !HasUpper(s[1..][..2]) && IsUpper(s[1..][2]) && !HasUpper(s[1..][3..])
    ensures s[..0] + ['-', ToLower(s[0])] + (s[1..][..2] + ['-', ToLower(s[1..][2])] + s[1..][3..]) == "-moz-transition"
    ensures ReplaceMsPrefix("-moz-transition") == "-moz-transition"
  {
    var t := "-moz-transition";
    assert t[..3][0] == '-';
  }

  /** `MozTransition` becomes `-moz-transition`: a leading capital yields a leading dash. */
  lemma ExampleMozTransition(s: string)
    requires s == "MozTransition"
    ensures HyphenateStyleName(s) == "-moz-transition"
  {
    MozTransitionParts(s);
    CapitalAt(s, 0);
    OneCapital(s[1..], 2);
    HyphenateReplaced(s, "-moz-transition");
  }

  lemma MsTransitionParts(s: string)
    requires s == "msTransition"
    ensures |s| == 12 && s[0] == 'm'
    ensures !HasUpper(s[..2]) && IsUpper(s[2]) && !HasUpper(s[3..])
    ensures s[..2] + ['-', ToLower(s[2])] + s[3..] == "ms-transition"
    ensures ReplaceMsPrefix("ms-transition") == "-ms-transition"
  {
    var t := "ms-transition";
    assert StartsWith(t, "ms-") && "-ms-" + t[3..] == "-ms-transition";
  }

  /** `msTransition` becomes `-ms-transition`: the `ms` prefix gains a leading dash. */
  lemma ExampleMsTransition(s: string)
    requires s == "msTransition"
    ensures HyphenateStyleName(s) == "-ms-transition"
  {
    MsTransitionParts(s);
    OneCapital(s, 2);
    HyphenateReplaced(s, "ms-transition");
  }
}
