/** The data-URL header the bridge strips before decoding an image: the text
    up to and including "base64," (the ";base64," of section 3 of RFC 2397). */
module DataUrl {
  import opened Wrappers

  const MARKER: string := "base64,"

  predicate OccursAt(s: string, i: int) {
    0 <= i && i + |MARKER| <= |s| && s[i..i + |MARKER|] == MARKER
  }

  /** `MARKER in s`. */
  predicate Contains(s: string) {
    exists i :: 0 <= i < |s| && OccursAt(s, i)
  }

  /** `s.find(MARKER, from)`: the first occurrence at or after `from`. */
  function Find(s: string, from: nat): (r: Option<nat>)
    ensures r.Some? ==> from <= r.value && OccursAt(s, r.value)
    ensures forall i :: from <= i && (r.None? || i < r.value) ==> !OccursAt(s, i)
    decreases |s| - from
  {
    if from + |MARKER| > |s| then None
    else if s[from..from + |MARKER|] == MARKER then Some(from)
    else Find(s, from + 1)
  }

  /** Where the first occurrence of the marker starts. */
  function First(s: string): (i: nat)
    requires Contains(s)
    ensures OccursAt(s, i)
    ensures forall k :: 0 <= k < i ==> !OccursAt(s, k)
  {
    var k :| 0 <= k < |s| && OccursAt(s, k);
    Find(s, 0).value
  }

  /** `s.split(MARKER)[1]`: the segment right after the first occurrence, up
      to the next occurrence or the end of the text; it holds no occurrence
      itself. */
  function SecondField(s: string): (r: string)
    requires Contains(s)
    ensures
      var start := First(s) + |MARKER|;
      && start + |r| <= |s|
      && s[start..start + |r|] == r
      && (start + |r| == |s| || OccursAt(s, start + |r|))
    ensures !Contains(r)
  {
    var start := First(s) + |MARKER|;
    match Find(s, start)
    case None =>
      SegmentWithoutMarker(s, start, |s|);
      assert s[start..start + |s[start..]|] == s[start..];
      s[start..]
    case Some(j) =>
      SegmentWithoutMarker(s, start, j);
      s[start..j]
  }

  /** A slice of a slice is a slice of the whole. */
  lemma SliceOfSlice(s: string, start: nat, end: nat, k: nat, m: nat)
    requires start <= end <= |s| && k + m <= end - start
    ensures s[start..end][k..k + m] == s[start + k..start + k + m]
  {
    var a, b := s[start..end][k..k + m], s[start + k..start + k + m];
    forall j | 0 <= j < m ensures a[j] == b[j] {
      assert a[j] == s[start..end][k + j];
    }
  }

  /** A segment of `s` that no occurrence of `s` starts inside holds no
      occurrence itself. */
  lemma SegmentWithoutMarker(s: string, start: nat, end: nat)
    requires start <= end <= |s|
    requires forall i :: start <= i < end ==> !OccursAt(s, i)
    ensures !Contains(s[start..end])
  {
    var r := s[start..end];
    forall k | 0 <= k < |r| ensures OccursAt(r, k) ==> OccursAt(s, start + k) {
      if k + |MARKER| <= |r| {
        SliceOfSlice(s, start, end, k, |MARKER|);
      }
    }
  }

  /** Lines 153-154 of the bridge: keep the second field when the marker
      occurs, the whole text otherwise. */
  function StripHeader(s: string): (r: string)
    ensures !Contains(s) ==> r == s
    ensures Contains(s) ==>
      var start := First(s) + |MARKER|;
      && start + |r| <= |s|
      && s[start..start + |r|] == r
      && (start + |r| == |s| || OccursAt(s, start + |r|))
    ensures !Contains(r)
  {
    if Contains(s) then
      SecondField(s)
    else s
  }

  /** Every occurrence of the marker ends in ",". */
  lemma OccurrenceEndsInComma(s: string, i: int)
    requires OccursAt(s, i)
    ensures s[i + |MARKER| - 1] == ','
  {
    assert s[i + |MARKER| - 1] == s[i..i + |MARKER|][|MARKER| - 1];
  }

  /** A header `prefix + "base64,"` in front of a payload without "," is
      stripped exactly: what is left is the payload. */
  lemma {:induction false} StripPrefixed(prefix: string, payload: string)
    requires !Contains(prefix)
    requires forall i :: 0 <= i < |payload| ==> payload[i] != ','
    ensures StripHeader(prefix + MARKER + payload) == payload
  {
    var s := prefix + MARKER + payload;
    var p := |prefix|;
    assert OccursAt(s, p) by {
      assert s[p..p + |MARKER|] == MARKER;
    }
    forall k | 0 <= k < p ensures !OccursAt(s, k) {
      if OccursAt(s, k) {
        OccurrenceEndsInComma(s, k);
        var e := k + |MARKER| - 1;
        if e < p {
          assert s[k..k + |MARKER|] == prefix[k..k + |MARKER|];
          assert OccursAt(prefix, k);
          assert false;
        } else {
          assert false;
        }
      }
    }
    assert First(s) == p;
    forall k | p + |MARKER| <= k ensures !OccursAt(s, k) {
      if OccursAt(s, k) {
        OccurrenceEndsInComma(s, k);
        assert false;
      }
    }
    var r := StripHeader(s);
    assert p + |MARKER| + |r| == |s|;
    assert s[p + |MARKER|..] == payload;
  }

  /** A payload without "," passes through unchanged. */
  lemma StripBare(payload: string)
    requires forall i :: 0 <= i < |payload| ==> payload[i] != ','
    ensures StripHeader(payload) == payload
  {
    if Contains(payload) {
      var k := First(payload);
      OccurrenceEndsInComma(payload, k);
    }
  }
}
