// parse_html: the colours between the palette title and the next palette marker.
module PaletteScan {
  import opened Wrappers
  import opened Sequences

  const TITLE := "Classy Palette"
  const COLOR_MARKER := "<div class='color' style='background:"
  const END_MARKER := "<div class='color-palette js-sr-palette'>"
  const HEX_LENGTH: nat := 7

  predicate OccursAt(html: string, pattern: string, i: nat) {
    i + |pattern| <= |html| && html[i..i + |pattern|] == pattern
  }

  // std::string::find: the first occurrence at or after `from`, or None for npos.
  method Find(html: string, pattern: string, from: nat) returns (r: Option<nat>)
    ensures r.Some? ==> from <= r.value && OccursAt(html, pattern, r.value)
                        && forall i :: from <= i < r.value ==> !OccursAt(html, pattern, i)
    ensures r.None? ==> forall i :: from <= i ==> !OccursAt(html, pattern, i)
  {
    var i := from;
    while i + |pattern| <= |html|
      invariant from <= i
      invariant forall j :: from <= j < i ==> !OccursAt(html, pattern, j)
    {
      if html[i..i + |pattern|] == pattern {
        return Some(i);
      }
      i := i + 1;
    }
    return None;
  }

  // Every position of the marker in [from, to), in order, found by looking everywhere.
  function MarkersIn(html: string, from: nat, to: nat): (ps: seq<nat>)
    ensures forall p :: p in ps ==> from <= p < to && OccursAt(html, COLOR_MARKER, p)
    decreases if from < to then to - from else 0
  {
    if from >= to then []
    else (if OccursAt(html, COLOR_MARKER, from) then [from] else []) + MarkersIn(html, from + 1, to)
  }

  ghost predicate Increasing(ps: seq<nat>) {
    forall i, j :: 0 <= i < j < |ps| ==> ps[i] < ps[j]
  }

  // Those are all of them, each once.
  lemma {:induction false} MarkersInExact(html: string, from: nat, to: nat)
    ensures forall p: nat :: p in MarkersIn(html, from, to) <==> from <= p < to && OccursAt(html, COLOR_MARKER, p)
    ensures Increasing(MarkersIn(html, from, to))
    decreases if from < to then to - from else 0
  {
    if from < to {
      MarkersInExact(html, from + 1, to);
      var ps, later := MarkersIn(html, from, to), MarkersIn(html, from + 1, to);
      if OccursAt(html, COLOR_MARKER, from) {
        assert ps == [from] + later;
        assert forall j :: 0 <= j < |later| ==> later[j] in later;
      } else {
        assert ps == later;
      }
    }
  }

  lemma {:induction false} NoMarkersIn(html: string, from: nat, mid: nat, to: nat)
    requires from <= mid <= to
    requires forall i :: from <= i < mid ==> !OccursAt(html, COLOR_MARKER, i)
    ensures MarkersIn(html, from, to) == MarkersIn(html, mid, to)
    decreases mid - from
  {
    if from < mid { NoMarkersIn(html, from + 1, mid, to); }
  }

  // Only the first character of the colour marker is '<', and both markers start with it.
  lemma MarkerShape()
    ensures COLOR_MARKER[0] == '<' == END_MARKER[0]
    ensures forall k :: 0 < k < |COLOR_MARKER| ==> COLOR_MARKER[k] != '<'
    ensures |END_MARKER| >= HEX_LENGTH
  {
  }

  // So nothing starting with '<' can begin inside a colour marker.
  lemma NoOverlap(html: string, i: nat, pattern: string, j: nat)
    requires OccursAt(html, COLOR_MARKER, i) && OccursAt(html, pattern, j)
    requires pattern != "" && pattern[0] == '<'
    requires i < j
    ensures i + |COLOR_MARKER| <= j
  {
    MarkerShape();
    assert html[j] == html[j..j + |pattern|][0];
    if j < i + |COLOR_MARKER| { InsideMarker(html, i, j - i); }
  }

  lemma InsideMarker(html: string, i: nat, k: nat)
    requires OccursAt(html, COLOR_MARKER, i) && k < |COLOR_MARKER|
    ensures html[i + k] == COLOR_MARKER[k]
  {
    assert html[i + k] == html[i..i + |COLOR_MARKER|][k];
  }

  // The seven characters right after each of the given marker positions.
  ghost predicate SlicesOf(html: string, ps: seq<nat>, colors: seq<string>) {
    && |colors| == |ps|
    && forall i :: 0 <= i < |ps| ==> |colors[i]| == 7 && OccursAt(html, COLOR_MARKER + colors[i], ps[i])
  }

  // The palette runs from the first title to the first end marker after it.
  ghost predicate PaletteSpan(html: string, start: nat, end: nat) {
    && OccursAt(html, TITLE, start) && (forall i :: 0 <= i < start ==> !OccursAt(html, TITLE, i))
    && start <= end && OccursAt(html, END_MARKER, end)
    && (forall i :: start <= i < end ==> !OccursAt(html, END_MARKER, i))
  }

  // The loop: from the end of one marker the next is found, and none was skipped.
  method ColorsIn(html: string, start: nat, end: nat) returns (colors: seq<string>)
    requires start <= end && OccursAt(html, END_MARKER, end)
    ensures SlicesOf(html, MarkersIn(html, start, end), colors)
  {
    colors := [];
    var at := start;
    ghost var found: seq<nat> := [];
    while true
      invariant start <= at <= end
      invariant found + MarkersIn(html, at, end) == MarkersIn(html, start, end)
      invariant SlicesOf(html, found, colors)
      decreases end - at
    {
      var next := Find(html, COLOR_MARKER, at);
      if next.None? || next.value >= end {
        NoMarkersIn(html, at, end, end);
        assert found + MarkersIn(html, end, end) == found;
        break;
      }
      var p := next.value;
      NextMarker(html, at, p, end);
      var color := html[p + |COLOR_MARKER|..p + |COLOR_MARKER| + HEX_LENGTH];
      SlicesSnoc(html, found, colors, p, color);
      Regroup3(found, [p], MarkersIn(html, p + |COLOR_MARKER|, end));
      colors := colors + [color];
      at, found := p + |COLOR_MARKER|, found + [p];
    }
  }

  lemma SlicesSnoc(html: string, ps: seq<nat>, colors: seq<string>, p: nat, color: string)
    requires SlicesOf(html, ps, colors) && OccursAt(html, COLOR_MARKER, p) && |color| == HEX_LENGTH
    requires p + |COLOR_MARKER| + HEX_LENGTH <= |html|
    requires color == html[p + |COLOR_MARKER|..p + |COLOR_MARKER| + HEX_LENGTH]
    ensures SlicesOf(html, ps + [p], colors + [color])
  {
    assert html[p..p + |COLOR_MARKER + color|] == COLOR_MARKER + color;
  }

  lemma NextMarker(html: string, at: nat, p: nat, end: nat)
    requires at <= p < end && OccursAt(html, END_MARKER, end)
    requires OccursAt(html, COLOR_MARKER, p) && forall i :: at <= i < p ==> !OccursAt(html, COLOR_MARKER, i)
    ensures p + |COLOR_MARKER| <= end && end + HEX_LENGTH <= |html|
    ensures MarkersIn(html, at, end) == [p] + MarkersIn(html, p + |COLOR_MARKER|, end)
  {
    MarkerShape();
    NoMarkersIn(html, at, p, end);
    NoOverlap(html, p, END_MARKER, end);
    forall i | p + 1 <= i < p + |COLOR_MARKER| ensures !OccursAt(html, COLOR_MARKER, i) {
      if OccursAt(html, COLOR_MARKER, i) { NoOverlap(html, p, COLOR_MARKER, i); }
    }
    NoMarkersIn(html, p + 1, p + |COLOR_MARKER|, end);
  }

  method ParseHtml(html: string) returns (colors: seq<string>)
    ensures forall start, end :: PaletteSpan(html, start, end) ==> SlicesOf(html, MarkersIn(html, start, end), colors)
    ensures (forall start, end :: !PaletteSpan(html, start, end)) ==> colors == []
  {
    var title := Find(html, TITLE, 0);
    if title.None? { return []; }
    var close := Find(html, END_MARKER, title.value);
    if close.None? { return []; }
    colors := ColorsIn(html, title.value, close.value);
    assert PaletteSpan(html, title.value, close.value);
  }
}
