/** The plotter of internal/metrics/plot.go: where the points of the four panels land, and the escaping of the title. */
module Plot {
  import opened Sampler
  import Timeline

  const PLOT_WIDTH := 960
  const PANEL_HEIGHT := 190
  const PAD_LEFT := 64
  const PAD_RIGHT := 24
  const PAD_TOP := 34
  const PAD_BOTTOM := 34
  const PLOT_W := PLOT_WIDTH - PAD_LEFT - PAD_RIGHT
  const PLOT_H := PANEL_HEIGHT - 46

  datatype Point = Point(x: real, y: real)
  datatype Box = Box(left: int, right: int, top: int, bottom: int)

  predicate Inside(p: Point, b: Box) {
    b.left as real <= p.x <= b.right as real && b.top as real <= p.y <= b.bottom as real
  }

  predicate InPicture(p: Point) {
    0.0 <= p.x <= PLOT_WIDTH as real && 0.0 <= p.y <= (PAD_TOP + 4 * PANEL_HEIGHT + PAD_BOTTOM) as real
  }

  function PanelTop(panel: nat): int {
    PAD_TOP + panel * PANEL_HEIGHT
  }

  function BaseY(top: int): int {
    top + PLOT_H + 12
  }

  /** The plotting area of a panel, inside its axes. */
  function PanelBox(panel: nat): Box {
    Box(PAD_LEFT, PAD_LEFT + PLOT_W, PanelTop(panel) + 12, BaseY(PanelTop(panel)))
  }

  function ToPoint(x: real, maxX: real, v: real, maxV: real, top: int): Point
    requires maxX > 0.0 && maxV > 0.0
  {
    Point(PAD_LEFT as real + x / maxX * PLOT_W as real, BaseY(top) as real - v / maxV * PLOT_H as real)
  }

  /** The scale of an axis: the largest value, or 1 when none is positive. */
  predicate IsScale(vals: seq<real>, maxV: real) {
    && maxV > 0.0
    && (forall k :: 0 <= k < |vals| ==> vals[k] <= maxV)
    && (maxV in vals || (maxV == 1.0 && forall k :: 0 <= k < |vals| ==> vals[k] <= 0.0))
  }

  /** The polyline of one panel. */
  method DrawPanel(vals: seq<real>, xs: seq<real>, maxX: real, top: int) returns (points: seq<Point>, ghost maxV: real)
    requires |xs| == |vals| && maxX > 0.0
    ensures IsScale(vals, maxV)
    ensures |points| == |vals|
    ensures forall k :: 0 <= k < |vals| ==> points[k] == ToPoint(xs[k], maxX, vals[k], maxV, top)
  {
    var max := 0.0;
    for k := 0 to |vals|
      invariant max >= 0.0 && forall j :: 0 <= j < k ==> vals[j] <= max
      invariant max == 0.0 || max in vals
    {
      if vals[k] > max {
        max := vals[k];
      }
    }
    if max <= 0.0 {
      max := 1.0;
    }
    maxV := max;
    points := [];
    for k := 0 to |vals|
      invariant |points| == k
      invariant forall j :: 0 <= j < k ==> points[j] == ToPoint(xs[j], maxX, vals[j], max, top)
    {
      var x := PAD_LEFT as real + xs[k] / maxX * PLOT_W as real;
      var y := BaseY(top) as real - vals[k] / max * PLOT_H as real;
      points := points + [Point(x, y)];
    }
  }

  /** The four quantities plotted. */
  function Plucked(panel: nat, s: Sample): real {
    match panel
    case 0 => s.gbps
    case 1 => s.rssBytes as real / 1_048_576.0
    case 2 => s.inFlight as real
    case _ => s.cpuPct
  }

  function Column(panel: nat, samples: seq<Sample>): (vals: seq<real>)
    ensures |vals| == |samples|
  {
    seq(|samples|, k requires 0 <= k < |samples| => Plucked(panel, samples[k]))
  }

  method Pluck(samples: seq<Sample>, panel: nat) returns (out: seq<real>)
    ensures out == Column(panel, samples)
  {
    out := [];
    for k := 0 to |samples|
      invariant out == Column(panel, samples)[..k]
    {
      out := out + [Plucked(panel, samples[k])];
    }
  }

  function MaxX(samples: seq<Sample>): real
    requires samples != []
  {
    var last := samples[|samples| - 1].tMillis as real / 1000.0;
    if last <= 0.0 then 1.0 else last
  }

  /** On the picture: its time between 0 and the right end of the axis, and its value not negative. */
  predicate Plottable(samples: seq<Sample>, panel: nat, k: nat)
    requires k < |samples|
  {
    0.0 <= samples[k].tMillis as real / 1000.0 <= MaxX(samples) && Plucked(panel, samples[k]) >= 0.0
  }

  /** Where sample k is drawn in a panel whose value axis has the given scale. */
  function PointOf(samples: seq<Sample>, panel: nat, k: nat, scale: real): Point
    requires k < |samples| && scale > 0.0
  {
    ToPoint(samples[k].tMillis as real / 1000.0, MaxX(samples), Plucked(panel, samples[k]), scale, PanelTop(panel))
  }

  /** The polyline of a panel: every sample at its time and value, the value axis scaled to the panel's largest value. */
  predicate Drawn(samples: seq<Sample>, panel: nat, points: seq<Point>, scale: real) {
    && |points| == |samples|
    && IsScale(Column(panel, samples), scale)
    && forall k :: 0 <= k < |points| ==> points[k] == PointOf(samples, panel, k, scale)
  }

  /**
   The panels of the picture, none for no samples. Every sample is drawn at its time and value on the
   panel's two scales, so AxesAreFaithful speaks of these points. A point lies inside its panel's box
   exactly when its time lies on the axis and its value is not negative; it is then in no other panel's
   box, and in the picture.
   */
  method PlotSVG(samples: seq<Sample>) returns (panels: seq<seq<Point>>, ghost scales: seq<real>)
    ensures samples == [] ==> panels == []
    ensures samples != [] ==> |panels| == 4
    ensures forall p :: 0 <= p < |panels| ==> |panels[p]| == |samples|
    ensures |scales| == |panels| && forall p :: 0 <= p < |panels| ==> Drawn(samples, p, panels[p], scales[p])
    ensures forall p, k :: 0 <= p < |panels| && 0 <= k < |samples| ==>
              (Inside(panels[p][k], PanelBox(p)) <==> Plottable(samples, p, k))
    ensures forall p, q: nat, k :: 0 <= p < |panels| && 0 <= k < |samples| && Inside(panels[p][k], PanelBox(p)) ==>
              InPicture(panels[p][k]) && (q != p ==> !Inside(panels[p][k], PanelBox(q)))
  {
    panels, scales := [], [];
    if samples == [] {
      return;
    }
    var xs: seq<real> := [];
    for k := 0 to |samples|
      invariant |xs| == k && forall j :: 0 <= j < k ==> xs[j] == samples[j].tMillis as real / 1000.0
    {
      xs := xs + [samples[k].tMillis as real / 1000.0];
    }
    var maxX := xs[|xs| - 1];
    if maxX <= 0.0 {
      maxX := 1.0;
    }
    for p := 0 to 4
      invariant |panels| == |scales| == p
      invariant forall q :: 0 <= q < p ==> Drawn(samples, q, panels[q], scales[q])
    {
      var vals := Pluck(samples, p);
      var points, maxV := DrawPanel(vals, xs, maxX, PanelTop(p));
      assert Drawn(samples, p, points, maxV);
      panels, scales := panels + [points], scales + [maxV];
    }
    forall p | 0 <= p < 4 ensures |panels[p]| == |samples| {
      assert Drawn(samples, p, panels[p], scales[p]);
    }
    forall p, k | 0 <= p < 4 && 0 <= k < |samples|
      ensures Inside(panels[p][k], PanelBox(p)) <==> Plottable(samples, p, k)
    {
      DrawnInside(samples, p, panels[p], scales[p], k);
    }
    forall p, q: nat, k | 0 <= p < 4 && 0 <= k < |samples| && Inside(panels[p][k], PanelBox(p))
      ensures InPicture(panels[p][k]) && (q != p ==> !Inside(panels[p][k], PanelBox(q)))
    {
      PanelsAreDisjoint(p, if q != p then q else p + 1, panels[p][k]);
    }
  }

  lemma DrawnInside(samples: seq<Sample>, panel: nat, points: seq<Point>, scale: real, k: nat)
    requires Drawn(samples, panel, points, scale) && k < |samples|
    ensures Inside(points[k], PanelBox(panel)) <==> Plottable(samples, panel, k)
  {
    assert Column(panel, samples)[k] == Plucked(panel, samples[k]);
    InsideExactlyIf(samples[k].tMillis as real / 1000.0, MaxX(samples), Plucked(panel, samples[k]), scale, panel);
  }

  lemma FractionOf(a: real, m: real, width: real)
    requires m > 0.0 && width > 0.0
    ensures a / m * width >= 0.0 <==> a >= 0.0
    ensures a / m * width <= width <==> a <= m
  {
    var q := a / m;
    assert q * m == a;
    assert q * width >= 0.0 <==> q >= 0.0;
    assert q * width <= width <==> q <= 1.0;
    assert q >= 0.0 <==> q * m >= 0.0;
    assert q <= 1.0 <==> q * m <= m;
  }

  lemma InsideExactlyIf(x: real, maxX: real, v: real, maxV: real, panel: nat)
    requires maxX > 0.0 && maxV > 0.0 && v <= maxV
    ensures Inside(ToPoint(x, maxX, v, maxV, PanelTop(panel)), PanelBox(panel)) <==> 0.0 <= x <= maxX && v >= 0.0
  {
    FractionOf(x, maxX, PLOT_W as real);
    FractionOf(v, maxV, PLOT_H as real);
  }

  /**
   The axes read as they should: time grows to the right from the left edge to the right one, values
   grow upwards from the base line, and the largest value touches the top of the box.
   */
  lemma AxesAreFaithful(x: real, x': real, maxX: real, v: real, v': real, maxV: real, panel: nat)
    requires maxX > 0.0 && maxV > 0.0
    ensures var top, box := PanelTop(panel), PanelBox(panel);
            var p, p' := ToPoint(x, maxX, v, maxV, top), ToPoint(x', maxX, v', maxV, top);
            && (x < x' <==> p.x < p'.x) && (v < v' <==> p.y > p'.y)
            && (p.x == box.left as real <==> x == 0.0) && (p.x == box.right as real <==> x == maxX)
            && (p.y == box.bottom as real <==> v == 0.0) && (p.y == box.top as real <==> v == maxV)
  {
    ScalingIsStrict(x, x', maxX, PLOT_W as real);
    ScalingIsStrict(v, v', maxV, PLOT_H as real);
  }

  lemma ScalingIsStrict(a: real, b: real, m: real, width: real)
    requires m > 0.0 && width > 0.0
    ensures a < b <==> a / m * width < b / m * width
    ensures a == 0.0 <==> a / m * width == 0.0
    ensures a == m <==> a / m * width == width
  {
    var p, q := a / m, b / m;
    assert p * m == a && q * m == b;
    assert p < q <==> p * m < q * m;
    assert p < q <==> p * width < q * width;
  }

  /** No two panels share a point, and all lie within the picture of four panels. */
  lemma PanelsAreDisjoint(p: nat, q: nat, a: Point)
    requires p != q
    ensures !(Inside(a, PanelBox(p)) && Inside(a, PanelBox(q)))
    ensures p < 4 && Inside(a, PanelBox(p)) ==> InPicture(a)
  {}

  lemma ReadsBackAxis(a: real, m: real, width: real)
    requires m > 0.0
    ensures a / m * width * m == a * width
  {
    var q := a / m;
    assert q * m == a;
    assert q * width * m == q * m * width;
  }

  /**
   What the picture says, in its own 960 by 828 coordinates: from the point of a sample one reads back its
   time on an axis of 872 that ends with the last sample (or after a second), and on an axis of 144, with
   panels 190 apart, the throughput in panel 0, the memory in MiB in panel 1, the requests in flight in
   panel 2 and the load in panel 3.
   */
  lemma PictureReadsBack(samples: seq<Sample>, panel: nat, points: seq<Point>, scale: real, k: nat)
    requires panel < 4 && Drawn(samples, panel, points, scale) && k < |samples|
    ensures var s, p, last := samples[k], points[k], samples[|samples| - 1].tMillis;
            var time, value := p.x - 64.0, (190 * (panel + 1)) as real - p.y;
            && time * (if last > 0 then last as real else 1000.0) == s.tMillis as real * 872.0
            && (panel == 0 ==> value * scale == s.gbps * 144.0)
            && (panel == 1 ==> value * scale * 1_048_576.0 == s.rssBytes as real * 144.0)
            && (panel == 2 ==> value * scale == s.inFlight as real * 144.0)
            && (panel == 3 ==> value * scale == s.cpuPct * 144.0)
  {
    var s := samples[k];
    assert points[k] == PointOf(samples, panel, k, scale);
    ReadsBackAxis(s.tMillis as real / 1000.0, MaxX(samples), 872.0);
    ReadsBackAxis(Plucked(panel, s), scale, 144.0);
  }

  /** One phase as the sampler saw it. */
  datatype Phase = Phase(first: Tick, ticks: seq<Tick>)

  predicate Honest(ph: Phase) {
    && Ordered(ph.first, ph.ticks) && Growing(ph.first, ph.ticks)
    && forall k :: 0 <= k < |ph.ticks| ==> ph.ticks[k].rss >= 0 && ph.ticks[k].inFlight >= 0
  }

  function Recorded(cores: int, phases: seq<Phase>): seq<seq<Sample>>
    requires cores >= 1
  {
    seq(|phases|, p requires 0 <= p < |phases| => Samples(cores, phases[p].first, phases[p].ticks))
  }

  /**
   From the sampler to the picture: with ticks in order, counters that only grow and gauges that are not
   negative, every sample of every phase is plottable on the joint axis, hence drawn inside its panel.
   */
  lemma WholeRunIsPlottable(cores: int, phases: seq<Phase>, interval: int, panel: nat, k: nat)
    requires cores >= 1 && interval >= 0
    requires forall p :: 0 <= p < |phases| ==> Honest(phases[p])
    requires k < |Timeline.Joined(Recorded(cores, phases), interval, |phases|)|
    ensures Plottable(Timeline.Joined(Recorded(cores, phases), interval, |phases|), panel, k)
  {
    var recorded := Recorded(cores, phases);
    forall p | 0 <= p < |recorded| ensures TimesOrdered(recorded[p]) && ValuesNotNegative(recorded[p]) {
      assert Honest(phases[p]);
      SamplesAreWellFormed(cores, phases[p].first, phases[p].ticks);
    }
    Timeline.JoinedInOrder(recorded, interval, |phases|);
    Timeline.NoEarlierThanZero(Timeline.Joined(recorded, interval, |phases|));
    JoinedNotNegative(recorded, interval, |phases|);
  }

  predicate ValuesNotNegative(samples: seq<Sample>) {
    forall k :: 0 <= k < |samples| ==>
      samples[k].gbps >= 0.0 && samples[k].cpuPct >= 0.0 && samples[k].rssBytes >= 0 && samples[k].inFlight >= 0
  }

  lemma {:induction false} JoinedNotNegative(phases: seq<seq<Sample>>, interval: int, k: nat)
    requires k <= |phases| && forall p :: 0 <= p < |phases| ==> ValuesNotNegative(phases[p])
    ensures ValuesNotNegative(Timeline.Joined(phases, interval, k))
  {
    if k > 0 {
      JoinedNotNegative(phases, interval, k - 1);
    }
  }

  // ---------------------------------------------------------------- the title

  function Entity(c: char): string {
    match c
    case '&' => "&amp;"
    case '<' => "&lt;"
    case '>' => "&gt;"
    case '"' => "&quot;"
    case _ => [c]
  }

  /** The replacer works through the text once, from left to right. */
  function EscapeXML(s: string): string {
    if s == [] then [] else Entity(s[0]) + EscapeXML(s[1..])
  }

  datatype Reading = Text(s: string) | Malformed

  function Before(c: char, r: Reading): Reading {
    if r.Text? then Text([c] + r.s) else Malformed
  }

  /** How an XML reader takes text in: entities stand for their characters, and a bare & or < is an error. */
  function ReadXML(t: string): Reading {
    if t == [] then Text([])
    else if "&amp;" <= t then Before('&', ReadXML(t[5..]))
    else if "&lt;" <= t then Before('<', ReadXML(t[4..]))
    else if "&gt;" <= t then Before('>', ReadXML(t[4..]))
    else if "&quot;" <= t then Before('"', ReadXML(t[6..]))
    else if t[0] == '&' || t[0] == '<' then Malformed
    else Before(t[0], ReadXML(t[1..]))
  }

  lemma ReadsBackOne(c: char, rest: string)
    ensures ReadXML(Entity(c) + rest) == Before(c, ReadXML(rest))
  {
    var e := Entity(c);
    var t := e + rest;
    assert t[..|e|] == e && t[|e|..] == rest;
    assert t[0] == e[0];
    if |e| > 1 {
      assert t[1] == e[1] && t[2] == e[2];
    }
  }

  predicate Markup(c: char) {
    c == '<' || c == '>' || c == '"'
  }

  lemma NoMarkupInEntity(c: char)
    ensures forall k :: 0 <= k < |Entity(c)| ==> !Markup(Entity(c)[k])
  {
    var e := Entity(c);
    assert |e| > 1 ==> e in ["&amp;", "&lt;", "&gt;", "&quot;"];
  }

  lemma {:induction false} NoMarkup(s: string)
    ensures forall k :: 0 <= k < |EscapeXML(s)| ==> !Markup(EscapeXML(s)[k])
  {
    if s != [] {
      NoMarkupInEntity(s[0]);
      NoMarkup(s[1..]);
    }
  }

  lemma {:induction false} ReadsBack(s: string)
    ensures ReadXML(EscapeXML(s)) == Text(s)
  {
    if s != [] {
      var rest := EscapeXML(s[1..]);
      ReadsBack(s[1..]);
      ReadsBackOne(s[0], rest);
      assert s == [s[0]] + s[1..];
    }
  }

  /** An XML reader gets the title back, and no character of it can open a tag or close an attribute. */
  lemma EscapingRoundTrips(s: string)
    ensures ReadXML(EscapeXML(s)) == Text(s)
    ensures forall k :: 0 <= k < |EscapeXML(s)| ==> !Markup(EscapeXML(s)[k])
  {
    ReadsBack(s);
    NoMarkup(s);
  }
}
