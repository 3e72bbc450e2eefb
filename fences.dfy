/**
 * Code-fence stripping of model output before it is parsed as JSON:
 * `text.replace(/```json|```/g, "").trim()`, the same expression in the
 * relay server's issue endpoint and in the browser relay client.
 */
module Fences {
  import opened JsString

  const JsonFence: string := "```json"
  const Fence: string := "```"

  /** Three backticks start at position `i` of `t`. */
  predicate FenceAt(t: string, i: int) {
    0 <= i && i + 3 <= |t| && t[i] == '`' && t[i + 1] == '`' && t[i + 2] == '`'
  }

  /** `t` holds no "```" anywhere (hence no "```json" either). */
  ghost predicate NoFence(t: string) {
    forall i :: !FenceAt(t, i)
  }

  /**
   * The global replace: scanning left to right, at each position the
   * alternative "```json" is tried before "```", and a match is dropped.
   */
  function RemoveFences(s: string): (r: string)
    ensures |r| <= |s|
    decreases |s|
  {
    if |s| >= 7 && s[..7] == JsonFence then RemoveFences(s[7..])
    else if |s| >= 3 && s[..3] == Fence then RemoveFences(s[3..])
    else if s == [] then []
    else [s[0]] + RemoveFences(s[1..])
  }

  /** The whole expression: replace, then `trim`. */
  function StripFences(s: string): (r: string)
    ensures |r| <= |s|
    ensures r == [] || (!IsWhitespace(r[0]) && !IsWhitespace(r[|r| - 1]))
  {
    Trim(RemoveFences(s))
  }

  /** Output that starts with a backtick comes from input that does. */
  lemma FirstBacktick(s: string)
    ensures RemoveFences(s) != [] && RemoveFences(s)[0] == '`' ==> s != [] && s[0] == '`'
  {
    if |s| >= 7 && s[..7] == JsonFence {
      assert s[0] == s[..7][0];
    } else if |s| >= 3 && s[..3] == Fence {
      assert s[0] == s[..3][0];
    }
  }

  /** Three leading backticks are a leading fence. */
  lemma FenceStart(s: string)
    ensures |s| >= 3 && s[0] == '`' && s[1] == '`' && s[2] == '`' ==> s[..3] == Fence
  {
  }

  /** The replace leaves no "```" behind, even where removals bring backticks together. */
  lemma {:induction false} RemoveFencesNoFence(s: string)
    ensures NoFence(RemoveFences(s))
    decreases |s|
  {
    if |s| >= 7 && s[..7] == JsonFence {
      RemoveFencesNoFence(s[7..]);
    } else if |s| >= 3 && s[..3] == Fence {
      RemoveFencesNoFence(s[3..]);
    } else if s != [] {
      var rest := RemoveFences(s[1..]);
      var out := RemoveFences(s);
      assert out == [s[0]] + rest;
      RemoveFencesNoFence(s[1..]);
      forall i ensures !FenceAt(out, i) {
        if i >= 1 {
          assert !FenceAt(rest, i - 1);
        } else {
          var t := s[1..];
          FirstBacktick(t);
          if s[0] == '`' && t != [] && t[0] == '`' {
            FenceStart(s);
            assert |t| < 2 || t[1] != '`';
            assert |t| >= 3 ==> t[..3][1] == t[1];
            assert |t| >= 7 ==> t[..7][1] == t[1];
            assert rest == [t[0]] + RemoveFences(t[1..]);
            FirstBacktick(t[1..]);
          }
        }
      }
    }
  }

  /** Text with no fence passes through the replace unchanged. */
  lemma {:induction false} RemoveFencesUnchanged(s: string)
    requires NoFence(s)
    ensures RemoveFences(s) == s
    decreases |s|
  {
    if s != [] {
      if |s| >= 7 && s[..7] == JsonFence {
        assert s[0] == s[..7][0] && s[1] == s[..7][1] && s[2] == s[..7][2];
        NoFenceAt(s, 0);
        assert false;
      } else if |s| >= 3 && s[..3] == Fence {
        assert s[0] == s[..3][0] && s[1] == s[..3][1] && s[2] == s[..3][2];
        NoFenceAt(s, 0);
        assert false;
      } else {
        assert forall i :: FenceAt(s[1..], i) ==> FenceAt(s, i + 1);
        RemoveFencesUnchanged(s[1..]);
      }
    }
  }

  lemma NoFenceAt(t: string, i: int)
    requires NoFence(t)
    ensures !FenceAt(t, i)
  {
  }

  /** A fence-free slice of a fence-free string. */
  lemma NoFenceSlice(s: string, a: nat, b: nat)
    requires a <= b <= |s| && NoFence(s)
    ensures NoFence(s[a..b])
  {
    assert forall i :: FenceAt(s[a..b], i) ==> FenceAt(s, i + a);
  }

  /** No fence starts at the head of `a + b` when `a` is fence-free and ends in another character. */
  lemma PlainHeadNoFence(a: string, b: string)
    requires a != [] && NoFence(a) && a[|a| - 1] != '`'
    ensures !(|a + b| >= 3 && (a + b)[..3] == Fence)
    ensures !(|a + b| >= 7 && (a + b)[..7] == JsonFence)
  {
    var s := a + b;
    if |a| >= 3 {
      NoFenceAt(a, 0);
      assert s[0] == a[0] && s[1] == a[1] && s[2] == a[2];
    } else if |s| >= 3 {
      assert s[..3][|a| - 1] == a[|a| - 1];
    }
    if |s| >= 7 {
      assert s[..3] == s[..7][..3] && JsonFence[..3] == Fence;
    }
  }

  /** Dropping the first character of fence-free text keeps it fence-free and keeps its last character. */
  lemma PlainTail(a: string)
    requires a != [] && NoFence(a) && a[|a| - 1] != '`'
    ensures NoFence(a[1..]) && (a[1..] == [] || a[1..][|a[1..]| - 1] != '`')
  {
    NoFenceSlice(a, 1, |a|);
    assert a[1..|a|] == a[1..];
  }

  /** The replace keeps the first character of fence-free text that does not end in a backtick. */
  lemma PlainHeadKept(a: string, b: string)
    requires a != [] && NoFence(a) && a[|a| - 1] != '`'
    ensures RemoveFences(a + b) == [a[0]] + RemoveFences(a[1..] + b)
  {
    PlainHeadNoFence(a, b);
    assert (a + b)[1..] == a[1..] + b;
  }

  /** Putting the first character back in front. */
  lemma ConsAppend(a: string, x: string)
    requires a != []
    ensures [a[0]] + (a[1..] + x) == a + x
  {
    assert a == [a[0]] + a[1..];
  }

  /** Fence-free text followed by anything: the replace works on the tail only. */
  lemma {:induction false} RemoveFencesAfterPlain(a: string, b: string)
    requires NoFence(a) && (a == [] || a[|a| - 1] != '`')
    ensures RemoveFences(a + b) == a + RemoveFences(b)
    decreases |a|
  {
    if a != [] {
      PlainTail(a);
      RemoveFencesAfterPlain(a[1..], b);
      PlainHeadKept(a, b);
      ConsAppend(a, RemoveFences(b));
    } else {
      assert a + b == b;
    }
  }

  /** Stripping leaves no "```" in the result. */
  lemma StripFencesNoFence(s: string)
    ensures NoFence(StripFences(s))
  {
    var t := RemoveFences(s);
    RemoveFencesNoFence(s);
    var a := TrimSlice(t);
    NoFenceSlice(t, a, a + |Trim(t)|);
  }

  /** Text containing no fence is only trimmed. */
  lemma StripFencesPlain(s: string)
    requires NoFence(s)
    ensures StripFences(s) == Trim(s)
  {
    RemoveFencesUnchanged(s);
  }

  /** Stripping a second time changes nothing. */
  lemma StripFencesIdempotent(s: string)
    ensures StripFences(StripFences(s)) == StripFences(s)
  {
    StripFencesNoFence(s);
    StripFencesPlain(StripFences(s));
    TrimIdempotent(RemoveFences(s));
  }

  /** At most two backticks end fence-free text, and what precedes them is fence-free and ends otherwise. */
  lemma TrailingTicks(body: string) returns (k: nat)
    requires NoFence(body)
    ensures k <= 2 && k <= |body|
    ensures forall i :: |body| - k <= i < |body| ==> body[i] == '`'
    ensures NoFence(body[..|body| - k])
    ensures body[..|body| - k] == [] || body[..|body| - k][|body| - k - 1] != '`'
  {
    if body == [] || body[|body| - 1] != '`' {
      k := 0;
    } else if |body| < 2 || body[|body| - 2] != '`' {
      k := 1;
    } else {
      k := 2;
      if |body| >= 3 {
        NoFenceAt(body, |body| - 3);
      }
    }
    NoFenceSlice(body, 0, |body| - k);
  }

  /** Fence-free text followed by "```": the closing fence is removed and nothing else. */
  lemma RemoveClosingFence(body: string)
    requires NoFence(body)
    ensures RemoveFences(body + Fence) == body
  {
    var k := TrailingTicks(body);
    var a := body[..|body| - k];
    var ticks := body[|body| - k..];
    assert body == a + ticks;
    assert body + Fence == a + (ticks + Fence);
    RemoveFencesAfterPlain(a, ticks + Fence);
    assert RemoveFences([]) == [];
    if k == 0 {
      assert ticks + Fence == Fence;
      assert RemoveFences(Fence) == RemoveFences(Fence[3..]);
    } else if k == 1 {
      assert ticks == "`";
      var t := ticks + Fence;
      assert t[..3] == Fence && t[3..] == ticks;
      assert RemoveFences(ticks) == [ticks[0]] + RemoveFences([]);
    } else {
      assert ticks == "``";
      var t := ticks + Fence;
      assert t[..3] == Fence && t[3..] == ticks;
      assert ticks[1..] == "`";
      assert RemoveFences(ticks[1..]) == [ticks[1]] + RemoveFences([]);
      assert RemoveFences(ticks) == [ticks[0]] + RemoveFences(ticks[1..]);
    }
  }

  /** A body wrapped as "```json" + body + "```" comes out as the trimmed body. */
  lemma StripJsonBlock(body: string)
    requires NoFence(body)
    ensures StripFences(JsonFence + body + Fence) == Trim(body)
  {
    var s := JsonFence + body + Fence;
    assert s[..7] == JsonFence;
    assert s[7..] == body + Fence;
    RemoveClosingFence(body);
  }
}
