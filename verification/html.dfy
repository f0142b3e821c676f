/** `escapeHtml` as written in scripts/admin-requests.js, scripts/admin-messages.js
    (both with a falsy guard) and scripts/media.ts (without one): five chained
    `replaceAll` calls, ampersand first. The model proves the chain equal to a
    character-by-character encoder and gives the decoder that inverts it. */
module Html {
  import opened Text
  import opened Js

  predicate IsSpecial(c: char) {
    c == '&' || c == '<' || c == '>' || c == '"' || c == '\''
  }

  /** The entity written for one character. */
  function EscapeChar(c: char): (r: string)
    ensures IsSpecial(c) ==> |r| >= 4 && r[0] == '&'
    ensures !IsSpecial(c) ==> r == [c]
  {
    match c
    case '&' => "&amp;"
    case '<' => "&lt;"
    case '>' => "&gt;"
    case '"' => "&quot;"
    case '\'' => "&#39;"
    case _ => [c]
  }

  /** Reference encoder: each character replaced by its entity, left to right. */
  function EncodeEach(s: string): string
  {
    if |s| == 0 then "" else EscapeChar(s[0]) + EncodeEach(s[1..])
  }

  /** `s.replaceAll(c, rep)` for a one-character pattern. */
  function ReplaceAll(s: string, c: char, rep: string): (r: string)
  {
    if |s| == 0 then "" else (if s[0] == c then rep else [s[0]]) + ReplaceAll(s[1..], c, rep)
  }

  lemma {:induction false} ReplaceAllConcat(a: string, b: string, c: char, rep: string)
    ensures ReplaceAll(a + b, c, rep) == ReplaceAll(a, c, rep) + ReplaceAll(b, c, rep)
    decreases |a|
  {
    if |a| == 0 {
      assert a + b == b;
    } else {
      assert (a + b)[1..] == a[1..] + b;
      ReplaceAllConcat(a[1..], b, c, rep);
    }
  }

  lemma {:induction false} ReplaceAllAbsent(s: string, c: char, rep: string)
    requires c !in s
    ensures ReplaceAll(s, c, rep) == s
    decreases |s|
  {
    if |s| > 0 {
      ReplaceAllAbsent(s[1..], c, rep);
    }
  }

  /** The five `replaceAll` calls of the source, in the source's order. */
  function ReplaceChain(s: string): string
  {
    ReplaceAll(ReplaceAll(ReplaceAll(ReplaceAll(ReplaceAll(s,
      '&', "&amp;"), '<', "&lt;"), '>', "&gt;"), '"', "&quot;"), '\'', "&#39;")
  }

  lemma ReplaceChainConcat(a: string, b: string)
    ensures ReplaceChain(a + b) == ReplaceChain(a) + ReplaceChain(b)
  {
    var a1, b1 := ReplaceAll(a, '&', "&amp;"), ReplaceAll(b, '&', "&amp;");
    ReplaceAllConcat(a, b, '&', "&amp;");
    var a2, b2 := ReplaceAll(a1, '<', "&lt;"), ReplaceAll(b1, '<', "&lt;");
    ReplaceAllConcat(a1, b1, '<', "&lt;");
    var a3, b3 := ReplaceAll(a2, '>', "&gt;"), ReplaceAll(b2, '>', "&gt;");
    ReplaceAllConcat(a2, b2, '>', "&gt;");
    var a4, b4 := ReplaceAll(a3, '"', "&quot;"), ReplaceAll(b3, '"', "&quot;");
    ReplaceAllConcat(a3, b3, '"', "&quot;");
    ReplaceAllConcat(a4, b4, '\'', "&#39;");
  }

  lemma ReplaceAllOne(c: char, x: char, rep: string)
    ensures ReplaceAll([c], x, rep) == if c == x then rep else [c]
  {
    assert [c][1..] == [];
  }

  /** Step `n` of the chain counted from the end: step 5 replaces `&`, step 1 replaces `'`. */
  function StepChar(n: nat): (c: char)
    requires 1 <= n <= 5
    ensures IsSpecial(c)
  {
    if n == 5 then '&' else if n == 4 then '<' else if n == 3 then '>' else if n == 2 then '"' else '\''
  }

  /** Which step replaces `c`; 0 for a character no step replaces. */
  function StepOf(c: char): (n: nat)
    ensures n <= 5
    ensures n == 0 <==> !IsSpecial(c)
    ensures n > 0 ==> StepChar(n) == c
  {
    if c == '&' then 5 else if c == '<' then 4 else if c == '>' then 3 else if c == '"' then 2
    else if c == '\'' then 1 else 0
  }

  /** The last `n` steps of the chain (5 = all of them). */
  function ChainTail(s: string, n: nat): string
    requires n <= 5
    decreases n
  {
    if n == 0 then s else ChainTail(ReplaceAll(s, StepChar(n), EscapeChar(StepChar(n))), n - 1)
  }

  lemma ReplaceChainIsChainTail(s: string)
    ensures ReplaceChain(s) == ChainTail(s, 5)
  {
    var s1 := ReplaceAll(s, '&', "&amp;");
    var s2 := ReplaceAll(s1, '<', "&lt;");
    var s3 := ReplaceAll(s2, '>', "&gt;");
    var s4 := ReplaceAll(s3, '"', "&quot;");
    assert ChainTail(s4, 1) == ReplaceChain(s);
    assert ChainTail(s3, 2) == ChainTail(s4, 1);
    assert ChainTail(s2, 3) == ChainTail(s3, 2);
    assert ChainTail(s1, 4) == ChainTail(s2, 3);
  }

  /** Text free of the characters the remaining steps replace passes through them. */
  lemma {:induction false} ChainTailAbsent(s: string, n: nat)
    requires n <= 5
    requires forall j :: 1 <= j <= n ==> StepChar(j) !in s
    ensures ChainTail(s, n) == s
    decreases n
  {
    if n > 0 {
      ReplaceAllAbsent(s, StepChar(n), EscapeChar(StepChar(n)));
      ChainTailAbsent(s, n - 1);
    }
  }

  /** The entity written at step `k` holds no character of a later step. */
  lemma EntityFreeOfLaterSteps(k: nat, j: nat)
    requires 1 <= j < k <= 5
    ensures StepChar(j) !in EscapeChar(StepChar(k))
  {
  }

  lemma {:induction false} ChainTailChar(c: char, n: nat)
    requires n <= 5
    ensures ChainTail([c], n) == if 1 <= StepOf(c) <= n then EscapeChar(c) else [c]
    decreases n
  {
    if n > 0 {
      ReplaceAllOne(c, StepChar(n), EscapeChar(StepChar(n)));
      if c == StepChar(n) {
        forall j | 1 <= j <= n - 1
          ensures StepChar(j) !in EscapeChar(c)
        {
          EntityFreeOfLaterSteps(n, j);
        }
        ChainTailAbsent(EscapeChar(c), n - 1);
      } else {
        ChainTailChar(c, n - 1);
      }
    }
  }

  /** On one character the chain writes that character's entity: no
      entity introduced by an earlier step is touched by a later one. */
  lemma ReplaceChainChar(c: char)
    ensures ReplaceChain([c]) == EscapeChar(c)
  {
    ReplaceChainIsChainTail([c]);
    ChainTailChar(c, 5);
  }

  lemma {:induction false} ReplaceChainIsEncodeEach(s: string)
    ensures ReplaceChain(s) == EncodeEach(s)
    decreases |s|
  {
    if |s| == 0 {
    } else {
      assert s == [s[0]] + s[1..];
      ReplaceChainConcat([s[0]], s[1..]);
      ReplaceChainChar(s[0]);
      ReplaceChainIsEncodeEach(s[1..]);
    }
  }

  /** Text with no raw `<`, `>`, `"` or `'`: safe inside element content and
      inside a quoted attribute value. */
  predicate MarkupSafe(s: string) {
    forall i :: 0 <= i < |s| ==> s[i] != '<' && s[i] != '>' && s[i] != '"' && s[i] != '\''
  }

  lemma {:induction false} EncodeEachSafe(s: string)
    ensures MarkupSafe(EncodeEach(s))
    decreases |s|
  {
    if |s| > 0 {
      EncodeEachSafe(s[1..]);
      var e := EscapeChar(s[0]);
      assert MarkupSafe(e);
      assert EncodeEach(s) == e + EncodeEach(s[1..]);
    }
  }

  /** The entity decoder for the five entities written by `Escape`; every other
      character, including an `&` that starts no such entity, is kept. */
  function Unescape(s: string): string
  {
    if |s| == 0 then ""
    else if StartsWith(s, "&amp;") then "&" + Unescape(s[5..])
    else if StartsWith(s, "&lt;") then "<" + Unescape(s[4..])
    else if StartsWith(s, "&gt;") then ">" + Unescape(s[4..])
    else if StartsWith(s, "&quot;") then "\"" + Unescape(s[6..])
    else if StartsWith(s, "&#39;") then "'" + Unescape(s[5..])
    else [s[0]] + Unescape(s[1..])
  }

  lemma UnescapeStep(c: char, rest: string)
    ensures Unescape(EscapeChar(c) + rest) == [c] + Unescape(rest)
  {
    var s := EscapeChar(c) + rest;
    if c == '&' {
      assert s[..5] == "&amp;" && s[5..] == rest;
    } else if c == '<' {
      assert s[1] == 'l';
      assert !StartsWith(s, "&amp;");
      assert s[..4] == "&lt;" && s[4..] == rest;
    } else if c == '>' {
      assert s[1] == 'g';
      assert !StartsWith(s, "&amp;") && !StartsWith(s, "&lt;");
      assert s[..4] == "&gt;" && s[4..] == rest;
    } else if c == '"' {
      assert s[1] == 'q';
      assert !StartsWith(s, "&amp;") && !StartsWith(s, "&lt;") && !StartsWith(s, "&gt;");
      assert s[..6] == "&quot;" && s[6..] == rest;
    } else if c == '\'' {
      assert s[1] == '#';
      assert !StartsWith(s, "&amp;") && !StartsWith(s, "&lt;") && !StartsWith(s, "&gt;");
      assert !StartsWith(s, "&quot;");
      assert s[..5] == "&#39;" && s[5..] == rest;
    } else {
      assert s[0] == c && s[1..] == rest;
      assert !StartsWith(s, "&amp;") && !StartsWith(s, "&lt;") && !StartsWith(s, "&gt;");
      assert !StartsWith(s, "&quot;") && !StartsWith(s, "&#39;");
    }
  }

  lemma {:induction false} UnescapeEncodeEach(s: string)
    ensures Unescape(EncodeEach(s)) == s
    decreases |s|
  {
    if |s| > 0 {
      UnescapeStep(s[0], EncodeEach(s[1..]));
      UnescapeEncodeEach(s[1..]);
      assert s == [s[0]] + s[1..];
    }
  }

  /** `escapeHtml` of scripts/media.ts: the five `replaceAll` calls. The
      result is the character-by-character entity encoding, contains no raw
      markup character, and decodes back to the input. */
  function Escape(s: string): (r: string)
    ensures r == EncodeEach(s)
    ensures MarkupSafe(r)
    ensures Unescape(r) == s
  {
    ReplaceChainIsEncodeEach(s);
    EncodeEachSafe(s);
    UnescapeEncodeEach(s);
    ReplaceChain(s)
  }

  /** `escapeHtml` of scripts/admin-requests.js and scripts/admin-messages.js:
      `String(value || "")` escaped, so every falsy value escapes to "". */
  function EscapeValue(v: JsValue): (r: string)
    ensures !Truthy(v) ==> r == ""
    ensures Truthy(v) ==> Unescape(r) == ToString(v) && r != ""
    ensures MarkupSafe(r)
  {
    Escape(TextOr(v))
  }
}
