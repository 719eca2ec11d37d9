// Clean-up of the language model's reply before JSON.parse, as both the
// analysis and the repurpose service do it: when the reply contains three
// backticks, `/```json?\n?/g` is replaced by "", then `/```/g` by "", then
// the result is trimmed; otherwise the reply is parsed as it came.

module ModelOutput {
  import opened JsBuiltins

  const Fence := "```"
  /** The fixed part of `/```json?\n?/`: the `n` and the newline are optional. */
  const JsonMarker := "```jso"

  /** `s.replace(/```json?\n?/g, "")`: scanning left to right, each
      "```jso" is dropped together with one following `n`, if any, and
      then one following newline, if any. */
  function RemoveJsonMarkers(s: string): string
    decreases |s|
  {
    if s == [] then []
    else if StartsWith(s, JsonMarker) then
      var k := if |s| > 6 && s[6] == 'n' then 7 else 6;
      var k' := if |s| > k && s[k] == '\n' then k + 1 else k;
      RemoveJsonMarkers(s[k'..])
    else [s[0]] + RemoveJsonMarkers(s[1..])
  }

  /** `s.replace(/```/g, "")`: scanning left to right, each run of three
      backticks is dropped. */
  function RemoveFences(s: string): string
    decreases |s|
  {
    if s == [] then []
    else if StartsWith(s, Fence) then RemoveFences(s[3..])
    else [s[0]] + RemoveFences(s[1..])
  }

  /** What the fence removal leaves never holds three backticks in a row,
      even where the dropped runs were: a backtick left just before a
      dropped run would have started that run itself. */
  lemma {:induction false} RemoveFencesLeavesNone(s: string)
    ensures !Includes(RemoveFences(s), Fence)
    ensures StartsWith(RemoveFences(s), "`") ==> StartsWith(s, "`")
    ensures StartsWith(RemoveFences(s), "``") ==> StartsWith(s, "``")
    decreases |s|
  {
    if s == [] {
    } else if StartsWith(s, Fence) {
      RemoveFencesLeavesNone(s[3..]);
      assert s[..2] == s[..3][..2];
      assert s[..1] == s[..3][..1];
    } else {
      var rest := RemoveFences(s[1..]);
      RemoveFencesLeavesNone(s[1..]);
      var r := [s[0]] + rest;
      assert RemoveFences(s) == r;
      assert r[1..] == rest;
      if StartsWith(r, Fence) {
        assert false;
      }
      if StartsWith(r, "``") {
        assert rest[..1] == r[1..2];
        assert StartsWith(s[1..], "`");
        assert s[..2] == [s[0]] + s[1..][..1];
      }
    }
  }

  /** The text handed to JSON.parse: the reply untouched when it has no
      three backticks, otherwise the reply with the markers and fences
      removed and then trimmed, which holds no three backticks and no
      surrounding whitespace. */
  function ExtractJson(content: string): (r: string)
    ensures !Includes(content, Fence) ==> r == content
    ensures Includes(content, Fence) ==> !Includes(r, Fence) && !StartsWithWhitespace(r) && !EndsWithWhitespace(r)
  {
    if Includes(content, Fence) then
      var stripped := RemoveFences(RemoveJsonMarkers(content));
      RemoveFencesLeavesNone(RemoveJsonMarkers(content));
      TrimKeepsAbsence(stripped, Fence);
      Trim(stripped)
    else content
  }

  predicate NoBacktick(s: string) {
    forall i :: 0 <= i < |s| ==> s[i] != '`'
  }

  lemma {:induction false} NoBacktickNoFence(s: string)
    requires NoBacktick(s)
    ensures !Includes(s, Fence)
  {
    if s != [] {
      assert !StartsWith(s, Fence) by { if |s| >= 3 { assert s[..3][0] == s[0]; } }
      NoBacktickNoFence(s[1..]);
    }
  }

  lemma {:induction false} RemoveJsonMarkersPlain(a: string, b: string)
    requires NoBacktick(a)
    ensures RemoveJsonMarkers(a + b) == a + RemoveJsonMarkers(b)
  {
    if a == [] {
      assert a + b == b;
    } else {
      var s := a + b;
      var a' := a[1..];
      assert s[0] == a[0] != '`';
      assert !StartsWith(s, JsonMarker) by { if |s| >= 6 { assert s[..6][0] == a[0]; } }
      RemoveJsonMarkersStep(s);
      assert s[1..] == a' + b;
      assert NoBacktick(a') by { forall i | 0 <= i < |a'| ensures a'[i] != '`' { assert a'[i] == a[i + 1]; } }
      RemoveJsonMarkersPlain(a', b);
      calc {
        RemoveJsonMarkers(s);
        [a[0]] + RemoveJsonMarkers(a' + b);
        [a[0]] + (a' + RemoveJsonMarkers(b));
        { assert [a[0]] + a' == a; }
        a + RemoveJsonMarkers(b);
      }
    }
  }

  lemma {:induction false} RemoveFencesPlain(a: string, b: string)
    requires NoBacktick(a)
    ensures RemoveFences(a + b) == a + RemoveFences(b)
  {
    if a == [] {
      assert a + b == b;
    } else {
      var s := a + b;
      var a' := a[1..];
      assert s[0] == a[0] != '`';
      assert !StartsWith(s, Fence) by { if |s| >= 3 { assert s[..3][0] == a[0]; } }
      assert RemoveFences(s) == [s[0]] + RemoveFences(s[1..]);
      assert s[1..] == a' + b;
      assert NoBacktick(a') by { forall i | 0 <= i < |a'| ensures a'[i] != '`' { assert a'[i] == a[i + 1]; } }
      RemoveFencesPlain(a', b);
      calc {
        RemoveFences(s);
        [a[0]] + RemoveFences(a' + b);
        [a[0]] + (a' + RemoveFences(b));
        { assert [a[0]] + a' == a; }
        a + RemoveFences(b);
      }
    }
  }

  /** Trimming a payload wrapped in a single newline on each side gives the
      payload back. */
  lemma TrimNewlines(p: string)
    requires p != [] && !StartsWithWhitespace(p) && !EndsWithWhitespace(p)
    ensures Trim("\n" + p + "\n") == p && Trim(p + "\n") == p
  {
    var s := "\n" + p + "\n";
    assert s[1..] == p + "\n";
    assert (p + "\n")[0] == p[0];
    assert TrimStart(p + "\n") == p + "\n";
    assert TrimStart(s) == p + "\n";
    assert (p + "\n")[..|p|] == p;
    assert TrimEnd(p + "\n") == TrimEnd(p) == p;
  }

  lemma JsonFencedRecovered(p: string)
    requires p != [] && NoBacktick(p)
    requires !StartsWithWhitespace(p) && !EndsWithWhitespace(p)
    ensures ExtractJson("```json\n" + p + "\n```") == p
  {
    var fenced := "```json\n" + p + "\n```";
    assert StartsWith(fenced, Fence);
    JsonMarkerDropped(p);
    ClosingFenceDropped(p);
    assert RemoveFences(RemoveJsonMarkers(fenced)) == p + "\n";
    TrimNewlines(p);
  }

  /** Once the marker is gone, the closing fence goes and the newline
      before it stays. */
  lemma ClosingFenceDropped(p: string)
    requires NoBacktick(p)
    ensures RemoveFences(p + "\n```") == p + "\n"
  {
    NoTickPrefix(p);
    RemoveFencesPlain(p + "\n", "```");
    assert p + "\n```" == (p + "\n") + "```";
    assert RemoveFences("```") == [];
  }

  /** The "```json" marker and its newline go; the payload and the closing
      fence stay. */
  lemma JsonMarkerDropped(p: string)
    requires NoBacktick(p)
    ensures RemoveJsonMarkers("```json\n" + p + "\n```") == p + "\n```"
  {
    var fenced := "```json\n" + p + "\n```";
    assert StartsWith(fenced, JsonMarker) && fenced[6] == 'n' && fenced[7] == '\n';
    assert fenced[8..] == p + "\n```";
    assert RemoveJsonMarkers(fenced) == RemoveJsonMarkers(p + "\n```");
    RemoveJsonMarkersPlain(p, "\n```");
    ClosingFenceKept();
  }

  lemma RemoveJsonMarkersStep(s: string)
    requires s != [] && !StartsWith(s, JsonMarker)
    ensures RemoveJsonMarkers(s) == [s[0]] + RemoveJsonMarkers(s[1..])
  {
  }

  /** Three backticks followed by a newline are not a "```jso" marker. */
  lemma FenceBeforeNewlineKept(tail: string)
    requires tail != [] && tail[0] == '\n'
    ensures RemoveJsonMarkers("```" + tail) == "```" + RemoveJsonMarkers(tail)
  {
    var s0 := "```" + tail;
    var s1 := "``" + tail;
    var s2 := "`" + tail;
    assert s0[1..] == s1 && s1[1..] == s2 && s2[1..] == tail;
    assert s0[3] == '\n' && s1[2] == '\n' && s2[1] == '\n';
    RemoveJsonMarkersStep(s2);
    RemoveJsonMarkersStep(s1);
    RemoveJsonMarkersStep(s0);
  }

  lemma ClosingFenceKept()
    ensures RemoveJsonMarkers("\n```") == "\n```"
  {
    assert RemoveJsonMarkers("```") == "```";
    assert "\n```"[1..] == "```";
  }

  lemma BareMarkersKept(p: string)
    requires NoBacktick(p)
    ensures RemoveJsonMarkers("```\n" + p + "\n```") == "```\n" + p + "\n```"
  {
    var head := "\n" + p;
    var tail := head + "\n```";
    NoTickPrefix(p);
    RemoveJsonMarkersPlain(head, "\n```");
    ClosingFenceKept();
    assert RemoveJsonMarkers(tail) == tail;
    assert tail[0] == '\n';
    FenceBeforeNewlineKept(tail);
    FenceSplit(p);
  }

  /** How the bare fence around a payload is taken apart. */
  lemma FenceSplit(p: string)
    ensures "```\n" + p + "\n```" == "```" + (("\n" + p) + "\n```")
  {
    var s := "```\n" + p + "\n```";
    var t := "```" + (("\n" + p) + "\n```");
    assert |s| == |t|;
    forall i | 0 <= i < |s| ensures s[i] == t[i] {
      if i < 4 {
      } else if i < 4 + |p| {
        assert s[i] == p[i - 4] == t[i];
      } else {
      }
    }
  }

  lemma BareFencesDropped(p: string)
    requires NoBacktick(p)
    ensures RemoveFences("```\n" + p + "\n```") == "\n" + p + "\n"
  {
    var bare := "```\n" + p + "\n```";
    var tail := "\n" + p + "\n```";
    NoTickPrefix(p);
    assert StartsWith(bare, Fence);
    assert bare[3..] == tail;
    RemoveFencesPlain("\n" + p + "\n", "```");
    assert tail == ("\n" + p + "\n") + "```";
    assert RemoveFences("```") == [];
  }

  lemma BareFencedRecovered(p: string)
    requires p != [] && NoBacktick(p)
    requires !StartsWithWhitespace(p) && !EndsWithWhitespace(p)
    ensures ExtractJson("```\n" + p + "\n```") == p
  {
    var bare := "```\n" + p + "\n```";
    assert StartsWith(bare, Fence);
    BareMarkersKept(p);
    BareFencesDropped(p);
    TrimNewlines(p);
  }

  /** A JSON payload free of backticks and surrounding whitespace reaches
      JSON.parse unchanged whether the model sent it bare, fenced as
      "```json", or fenced with bare "```". */
  lemma FencedPayloadRecovered(p: string)
    requires p != [] && NoBacktick(p)
    requires !StartsWithWhitespace(p) && !EndsWithWhitespace(p)
    ensures ExtractJson(p) == p
    ensures ExtractJson("```json\n" + p + "\n```") == p
    ensures ExtractJson("```\n" + p + "\n```") == p
  {
    NoBacktickNoFence(p);
    JsonFencedRecovered(p);
    BareFencedRecovered(p);
  }

  lemma NoTickPrefix(p: string)
    requires NoBacktick(p)
    ensures NoBacktick("\n" + p) && NoBacktick("\n" + p + "\n") && NoBacktick(p + "\n")
  {
    assert forall i :: 1 <= i < |p| + 1 ==> ("\n" + p)[i] == p[i - 1];
    assert forall i :: 1 <= i < |p| + 1 ==> ("\n" + p + "\n")[i] == p[i - 1];
    assert forall i :: 0 <= i < |p| ==> (p + "\n")[i] == p[i];
  }
}
