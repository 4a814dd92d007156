/** exportData / importData at the level of records: the document's bubbles
    and connections, zoom and translation. JSON text is not modelled. */
module Codec {
  import opened Scene

  datatype BubbleData = BubbleData(
    id: BubbleId,
    text: string,
    color: string,
    left: real,
    top: real,
    height: Option<real>)

  datatype ConnectionData = ConnectionData(
    startId: BubbleId,
    endId: BubbleId,
    lineType: string,
    color: Option<string>)

  /** `zoom` and `translate` are optional on import: a document may omit them. */
  datatype Document = Document(
    bubbles: seq<BubbleData>,
    connections: seq<ConnectionData>,
    zoom: Option<real>,
    translate: Option<Point>)

  /** JavaScript truthiness of an optional string. */
  predicate Truthy(s: Option<string>) {
    s.Some? && s.value != ""
  }

  /** `lineType || "solid"`. */
  function OrSolid(t: string): (r: string)
    ensures r != ""
    ensures t != "" ==> r == t
    ensures t == "" ==> r == Solid
  {
    if t == "" then Solid else t
  }

  // ---------------------------------------------------------------------
  // Export

  /** A bubble's record: importing it gives the bubble back, with no editor
      open. */
  function ExportBubble(b: Bubble): (r: BubbleData)
    ensures r.id == b.id
    ensures ImportBubble(r) == b.(editing := None)
  {
    BubbleData(b.id, b.text, b.color, b.left, b.top, b.height)
  }

  /** A connection's record: same endpoints, a line type that is never
      empty, and a colour only when the pinned colour is truthy. */
  function ExportConnection(c: Connection): (r: ConnectionData)
    ensures r.startId == c.start && r.endId == c.end
    ensures r.lineType != "" && (c.lineType != "" ==> r.lineType == c.lineType)
    ensures r.color.Some? <==> Truthy(c.customColor)
    ensures r.color.Some? ==> r.color == c.customColor && r.color.value != ""
  {
    ConnectionData(c.start, c.end, OrSolid(c.lineType), if Truthy(c.customColor) then c.customColor else None)
  }

  function ExportBubbles(bs: seq<Bubble>): seq<BubbleData> {
    seq(|bs|, i requires 0 <= i < |bs| => ExportBubble(bs[i]))
  }

  function ExportConnections(cs: seq<Connection>): seq<ConnectionData> {
    seq(|cs|, i requires 0 <= i < |cs| => ExportConnection(cs[i]))
  }

  /** exportData: every bubble and connection in order, the zoom and the translation. */
  function ExportScene(s: SceneState): (d: Document)
    ensures |d.bubbles| == |s.bubbles| && |d.connections| == |s.connections|
    ensures forall i :: 0 <= i < |s.bubbles| ==> d.bubbles[i].id == s.bubbles[i].id
    ensures forall i :: 0 <= i < |s.connections| ==>
      d.connections[i].startId == s.connections[i].start && d.connections[i].endId == s.connections[i].end
    ensures d.zoom == Some(s.zoomLevel) && d.translate == Some(Point(s.translateX, s.translateY))
  {
    Document(ExportBubbles(s.bubbles), ExportConnections(s.connections),
             Some(s.zoomLevel), Some(Point(s.translateX, s.translateY)))
  }

  // ---------------------------------------------------------------------
  // Import

  function ImportBubble(d: BubbleData): Bubble {
    Bubble(d.id, d.text, d.color, d.left, d.top, d.height, None)
  }

  function ImportBubbles(ds: seq<BubbleData>): seq<Bubble> {
    seq(|ds|, i requires 0 <= i < |ds| => ImportBubble(ds[i]))
  }

  function DocIds(ds: seq<BubbleData>): set<BubbleId> {
    set d | d in ds :: d.id
  }

  predicate DistinctDocIds(ds: seq<BubbleData>) {
    forall i, j :: 0 <= i < j < |ds| ==> ds[i].id != ds[j].id
  }

  /** The colour step after createConnection during import: a truthy colour is
      stored on whatever connection is LAST in the list, which is not the
      imported one when createConnection skipped it as a duplicate. */
  function PinLast(cs: seq<Connection>, color: Option<string>): (r: seq<Connection>)
    ensures |r| == |cs|
    ensures forall i :: 0 <= i < |cs| ==> r[i].start == cs[i].start && r[i].end == cs[i].end
    ensures !Truthy(color) || cs == [] ==> r == cs
    ensures Truthy(color) && cs != [] ==>
      r[..|cs| - 1] == cs[..|cs| - 1] && r[|cs| - 1] == cs[|cs| - 1].(customColor := color)
  {
    if Truthy(color) && |cs| > 0 then cs[..|cs| - 1] + [cs[|cs| - 1].(customColor := color)] else cs
  }

  /** One connection record of importData: skipped when either id is unknown,
      otherwise createConnection followed by the colour step. */
  function ImportStep(cs: seq<Connection>, ids: set<BubbleId>, cd: ConnectionData): (r: seq<Connection>)
    ensures !(cd.startId in ids && cd.endId in ids) ==> r == cs
    ensures |cs| <= |r| <= |cs| + 1
    ensures forall i :: 0 <= i < |cs| ==> r[i].start == cs[i].start && r[i].end == cs[i].end
    ensures |r| == |cs| + 1 <==> cd.startId in ids && cd.endId in ids && !HasPair(cs, cd.startId, cd.endId)
    ensures |r| == |cs| + 1 ==> r[|cs|].start == cd.startId && r[|cs|].end == cd.endId
    ensures cd.startId in ids && cd.endId in ids ==> HasPair(r, cd.startId, cd.endId)
  {
    if cd.startId in ids && cd.endId in ids then
      var added := AddConnection(cs, cd.startId, cd.endId, OrSolid(cd.lineType));
      SameEndpoints(added, PinLast(added, cd.color));
      PinLast(added, cd.color)
    else cs
  }

  /** A record whose bubbles are already joined (in either direction) adds
      no connection: only its colour step runs, on whatever connection
      happens to be last. */
  lemma ImportStepDuplicate(cs: seq<Connection>, ids: set<BubbleId>, cd: ConnectionData)
    requires cd.startId in ids && cd.endId in ids
    requires HasPair(cs, cd.startId, cd.endId)
    ensures ImportStep(cs, ids, cd) == PinLast(cs, cd.color)
  {
    var added := AddConnection(cs, cd.startId, cd.endId, OrSolid(cd.lineType));
    assert added == added[..|cs|];
  }

  /** A record whose bubbles are known and not yet joined appends its own
      connection, carrying the record's colour when that is truthy. */
  lemma ImportStepFresh(cs: seq<Connection>, ids: set<BubbleId>, cd: ConnectionData)
    requires cd.startId in ids && cd.endId in ids
    requires !HasPair(cs, cd.startId, cd.endId)
    ensures ImportStep(cs, ids, cd) ==
      cs + [Connection(cd.startId, cd.endId, OrSolid(cd.lineType), if Truthy(cd.color) then cd.color else None)]
  {
    var added := AddConnection(cs, cd.startId, cd.endId, OrSolid(cd.lineType));
    assert added == cs + [Connection(cd.startId, cd.endId, OrSolid(cd.lineType), None)];
  }

  /** Connections with the same bubbles, position by position, keep every
      pair and every endpoint. */
  lemma SameEndpoints(cs: seq<Connection>, r: seq<Connection>)
    requires |r| == |cs|
    requires forall i :: 0 <= i < |cs| ==> r[i].start == cs[i].start && r[i].end == cs[i].end
    ensures forall a, b :: HasPair(cs, a, b) ==> HasPair(r, a, b)
    ensures forall c :: c in r ==> Among(cs, c.start, c.end)
    ensures NoDuplicatePairs(cs) ==> NoDuplicatePairs(r)
  {
    forall a, b | HasPair(cs, a, b) ensures HasPair(r, a, b) {
      var c :| c in cs && SamePair(c, a, b);
      var i :| 0 <= i < |cs| && cs[i] == c;
      assert r[i] in r && SamePair(r[i], a, b);
    }
  }

  /** Some connection of `cs` goes from `a` to `b`. */
  predicate Among(cs: seq<Connection>, a: BubbleId, b: BubbleId) {
    exists x :: x in cs && x.start == a && x.end == b
  }

  /** Some record of `cds` asks for a connection from `a` to `b`. */
  predicate Recorded(cds: seq<ConnectionData>, a: BubbleId, b: BubbleId) {
    exists k :: 0 <= k < |cds| && cds[k].startId == a && cds[k].endId == b
  }

  /** One import step keeps the connection list valid, keeps every pair it
      had, adds the record's pair when both ids are known, and adds nothing else. */
  lemma ImportStepProps(cs: seq<Connection>, ids: set<BubbleId>, cd: ConnectionData)
    requires NoDuplicatePairs(cs)
    requires forall c :: c in cs ==> c.start in ids && c.end in ids
    ensures var r := ImportStep(cs, ids, cd);
      && NoDuplicatePairs(r)
      && (forall c :: c in r ==> c.start in ids && c.end in ids)
      && (forall a, b :: HasPair(cs, a, b) ==> HasPair(r, a, b))
      && (cd.startId in ids && cd.endId in ids ==> HasPair(r, cd.startId, cd.endId))
      && (forall c :: c in r ==> Among(cs, c.start, c.end) || (c.start == cd.startId && c.end == cd.endId))
  {
    if cd.startId in ids && cd.endId in ids {
      var added := AddConnection(cs, cd.startId, cd.endId, OrSolid(cd.lineType));
      var r := PinLast(added, cd.color);
      SameEndpoints(added, r);
      forall a, b | HasPair(cs, a, b) ensures HasPair(added, a, b) {
        var c :| c in cs && SamePair(c, a, b);
        var i :| 0 <= i < |cs| && cs[i] == c;
        assert added[i] == c;
        assert added[i] in added;
      }
      forall c | c in r
        ensures Among(cs, c.start, c.end) || (c.start == cd.startId && c.end == cd.endId)
      {
        var i :| 0 <= i < |r| && r[i] == c;
        if i < |cs| {
          assert added[i] == cs[i];
          assert cs[i] in cs;
        }
      }
      forall c | c in r ensures c.start in ids && c.end in ids {
        var i :| 0 <= i < |r| && r[i] == c;
        if i < |cs| {
          assert added[i] == cs[i];
          assert cs[i] in cs;
        }
      }
    }
  }

  /** The connection loop of importData, over the records in order. */
  function ImportConnections(ids: set<BubbleId>, cds: seq<ConnectionData>): (r: seq<Connection>)
    ensures |r| <= |cds|
  {
    if cds == [] then []
    else ImportStep(ImportConnections(ids, cds[..|cds| - 1]), ids, cds[|cds| - 1])
  }

  /** The imported connections are valid, reference known ids only, keep a
      connection for every record whose ids are both known, and come from
      records of the document only: dangling records are skipped. */
  lemma {:induction false} ImportConnectionsProps(ids: set<BubbleId>, cds: seq<ConnectionData>)
    ensures var r := ImportConnections(ids, cds);
      && NoDuplicatePairs(r)
      && (forall c :: c in r ==> c.start in ids && c.end in ids)
      && (forall k :: 0 <= k < |cds| && cds[k].startId in ids && cds[k].endId in ids ==>
            HasPair(r, cds[k].startId, cds[k].endId))
      && (forall c :: c in r ==> Recorded(cds, c.start, c.end))
  {
    if cds != [] {
      var n := |cds| - 1;
      var prefix := cds[..n];
      ImportConnectionsProps(ids, prefix);
      var before := ImportConnections(ids, prefix);
      var r := ImportConnections(ids, cds);
      assert r == ImportStep(before, ids, cds[n]);
      ImportStepProps(before, ids, cds[n]);
      StepCoversRecords(ids, cds, before, r);
      StepKeepsRecorded(cds, before, r);
    }
  }

  /** A record whose ids are known is covered after the step that follows
      the prefix holding it. */
  lemma StepCoversRecords(ids: set<BubbleId>, cds: seq<ConnectionData>, before: seq<Connection>, r: seq<Connection>)
    requires cds != []
    requires forall k :: 0 <= k < |cds| - 1 && cds[k].startId in ids && cds[k].endId in ids ==>
      HasPair(before, cds[k].startId, cds[k].endId)
    requires forall a, b :: HasPair(before, a, b) ==> HasPair(r, a, b)
    requires cds[|cds| - 1].startId in ids && cds[|cds| - 1].endId in ids ==>
      HasPair(r, cds[|cds| - 1].startId, cds[|cds| - 1].endId)
    ensures forall k :: 0 <= k < |cds| && cds[k].startId in ids && cds[k].endId in ids ==>
      HasPair(r, cds[k].startId, cds[k].endId)
  {
  }

  /** A step that adds only the pair of the last record keeps every
      connection recorded. */
  lemma StepKeepsRecorded(cds: seq<ConnectionData>, before: seq<Connection>, r: seq<Connection>)
    requires cds != []
    requires forall c :: c in before ==> Recorded(cds[..|cds| - 1], c.start, c.end)
    requires forall c :: c in r ==>
      (Among(before, c.start, c.end) || (c.start == cds[|cds| - 1].startId && c.end == cds[|cds| - 1].endId))
    ensures forall c :: c in r ==> Recorded(cds, c.start, c.end)
  {
    var n := |cds| - 1;
    forall c | c in r ensures Recorded(cds, c.start, c.end) {
      if c.start == cds[n].startId && c.end == cds[n].endId {
        assert cds[n].startId == c.start && cds[n].endId == c.end;
      } else {
        var x :| x in before && x.start == c.start && x.end == c.end;
        assert Recorded(cds[..n], x.start, x.end);
        var k :| 0 <= k < n && cds[..n][k].startId == x.start && cds[..n][k].endId == x.end;
        assert cds[k] == cds[..n][k];
      }
    }
  }

  /** How many leading bubble records importData gets through: the loop
      stops with a TypeError at the first record whose colour has no entry
      in the colour table, before that bubble is added. */
  function KnownPrefix(ds: seq<BubbleData>): (n: nat)
    ensures n <= |ds|
    ensures forall i :: 0 <= i < n ==> ColorFound(ds[i].color)
    ensures n < |ds| ==> !ColorFound(ds[n].color)
    decreases |ds|
  {
    if ds == [] || !ColorFound(ds[0].color) then 0
    else
      var n := 1 + KnownPrefix(ds[1..]);
      assert forall i :: 1 <= i < n ==> ds[i] == ds[1..][i - 1];
      n
  }

  /** The imported bubbles carry the records' ids, distinct when the records'
      are, and colours of the table when every record's colour is one. */
  lemma ImportedBubbles(ds: seq<BubbleData>)
    ensures Ids(ImportBubbles(ds)) == DocIds(ds)
    ensures DistinctDocIds(ds) ==> DistinctIds(ImportBubbles(ds))
    ensures (forall i :: 0 <= i < |ds| ==> ColorFound(ds[i].color)) ==> ColorsFound(ImportBubbles(ds))
  {
    var bs := ImportBubbles(ds);
    forall x | x in DocIds(ds) ensures x in Ids(bs) {
      var d :| d in ds && d.id == x;
      var i :| 0 <= i < |ds| && ds[i] == d;
      assert bs[i] in bs;
    }
    forall x | x in Ids(bs) ensures x in DocIds(ds) {
      var b :| b in bs && b.id == x;
      var i :| 0 <= i < |bs| && bs[i] == b;
      assert ds[i] in ds;
    }
  }

  /** importData as a whole, from a cleared scene (zoom 1, no translation).
      When every bubble record's colour is in the colour table: the bubbles
      in document order, the connections whose ids are both known, then the
      zoom if truthy and the translation if present. Otherwise the import
      stops at the first unknown colour: only the bubbles before it are
      added, and the connections and the view stay cleared. */
  function ImportScene(doc: Document): (s: SceneState)
    ensures DistinctDocIds(doc.bubbles) ==> SceneValid(s.bubbles, s.connections)
    ensures ColorsFound(s.bubbles)
    ensures s.zoomLevel != 0.0
    ensures s.bubbles == ImportBubbles(doc.bubbles[..KnownPrefix(doc.bubbles)])
    ensures forall c :: c in s.connections ==> c.start in Ids(s.bubbles) && c.end in Ids(s.bubbles)
    ensures forall c :: c in s.connections ==> Recorded(doc.connections, c.start, c.end)
    ensures KnownPrefix(doc.bubbles) == |doc.bubbles| ==>
      && Ids(s.bubbles) == DocIds(doc.bubbles)
      && |s.bubbles| == |doc.bubbles|
      && s.connections == ImportConnections(DocIds(doc.bubbles), doc.connections)
      && s.zoomLevel == (if doc.zoom.Some? && doc.zoom.value != 0.0 then doc.zoom.value else 1.0)
      && s.translateX == (if doc.translate.Some? then doc.translate.value.x else 0.0)
      && s.translateY == (if doc.translate.Some? then doc.translate.value.y else 0.0)
    ensures KnownPrefix(doc.bubbles) < |doc.bubbles| ==>
      && |s.bubbles| < |doc.bubbles|
      && s.connections == []
      && s.zoomLevel == 1.0 && s.translateX == 0.0 && s.translateY == 0.0
  {
    var n := KnownPrefix(doc.bubbles);
    var ds := doc.bubbles[..n];
    var bs := ImportBubbles(ds);
    ImportedBubbles(ds);
    assert DistinctDocIds(doc.bubbles) ==> DistinctDocIds(ds);
    if n < |doc.bubbles| then
      SceneState(bs, [], 1.0, 0.0, 0.0)
    else
      assert ds == doc.bubbles;
      ImportConnectionsProps(DocIds(doc.bubbles), doc.connections);
      SceneState(
        bs,
        ImportConnections(DocIds(doc.bubbles), doc.connections),
        if doc.zoom.Some? && doc.zoom.value != 0.0 then doc.zoom.value else 1.0,
        if doc.translate.Some? then doc.translate.value.x else 0.0,
        if doc.translate.Some? then doc.translate.value.y else 0.0)
  }

  // ---------------------------------------------------------------------
  // Round trip

  /** What a connection becomes after export and import: the line type and
      custom colour normalised as the exporter writes them. */
  function Normalized(c: Connection): Connection {
    Connection(c.start, c.end, OrSolid(c.lineType), if Truthy(c.customColor) then c.customColor else None)
  }

  function NormalizedAll(cs: seq<Connection>): seq<Connection> {
    seq(|cs|, i requires 0 <= i < |cs| => Normalized(cs[i]))
  }

  lemma NormalizedAllSnoc(cs: seq<Connection>)
    requires cs != []
    ensures NormalizedAll(cs) == NormalizedAll(cs[..|cs| - 1]) + [Normalized(cs[|cs| - 1])]
  {
    var n := |cs| - 1;
    assert forall i :: 0 <= i < n ==> NormalizedAll(cs)[i] == NormalizedAll(cs[..n])[i];
  }

  lemma ImportConnectionsSnoc(ids: set<BubbleId>, cds: seq<ConnectionData>)
    requires cds != []
    ensures ImportConnections(ids, cds) == ImportStep(ImportConnections(ids, cds[..|cds| - 1]), ids, cds[|cds| - 1])
  {
  }

  lemma PrefixNoDuplicates(cs: seq<Connection>, n: nat)
    requires n <= |cs| && NoDuplicatePairs(cs)
    ensures NoDuplicatePairs(cs[..n])
  {
    forall i, j | 0 <= i < j < n ensures !SamePair(cs[..n][j], cs[..n][i].start, cs[..n][i].end) {
      assert cs[..n][i] == cs[i] && cs[..n][j] == cs[j];
    }
  }

  /** Importing the export of a connection whose pair is new appends it, normalised. */
  lemma ImportStepOfExported(before: seq<Connection>, ids: set<BubbleId>, c: Connection)
    requires !HasPair(before, c.start, c.end)
    requires c.start in ids && c.end in ids
    ensures ImportStep(before, ids, ExportConnection(c)) == before + [Normalized(c)]
  {
    var added := AddConnection(before, c.start, c.end, OrSolid(c.lineType));
    assert added == before + [Connection(c.start, c.end, OrSolid(c.lineType), None)];
  }

  /** The last connection of a duplicate-free list is not among the
      normalised earlier ones. */
  lemma LastPairFresh(cs: seq<Connection>)
    requires cs != [] && NoDuplicatePairs(cs)
    ensures !HasPair(NormalizedAll(cs[..|cs| - 1]), cs[|cs| - 1].start, cs[|cs| - 1].end)
  {
    var n := |cs| - 1;
    var before := NormalizedAll(cs[..n]);
    forall x | x in before ensures !SamePair(x, cs[n].start, cs[n].end) {
      var k :| 0 <= k < |before| && before[k] == x;
      assert !SamePair(cs[n], cs[k].start, cs[k].end);
    }
  }

  /** The records of a prefix of the connections are the prefix of the records. */
  lemma ExportPrefix(cs: seq<Connection>, n: nat)
    requires n <= |cs|
    ensures ExportConnections(cs)[..n] == ExportConnections(cs[..n])
  {
  }

  /** Importing the records of one more connection appends its normal form. */
  lemma ImportExportedLast(ids: set<BubbleId>, cs: seq<Connection>)
    requires cs != [] && NoDuplicatePairs(cs)
    requires cs[|cs| - 1].start in ids && cs[|cs| - 1].end in ids
    requires ImportConnections(ids, ExportConnections(cs[..|cs| - 1])) == NormalizedAll(cs[..|cs| - 1])
    ensures ImportConnections(ids, ExportConnections(cs)) == NormalizedAll(cs)
  {
    var n := |cs| - 1;
    var cds := ExportConnections(cs);
    var before := NormalizedAll(cs[..n]);
    var c := cs[n];
    assert ImportStep(before, ids, ExportConnection(c)) == before + [Normalized(c)] by {
      LastPairFresh(cs);
      ImportStepOfExported(before, ids, c);
    }
    assert ImportConnections(ids, cds) == before + [Normalized(c)] by {
      ExportPrefix(cs, n);
      ImportConnectionsSnoc(ids, cds);
    }
    NormalizedAllSnoc(cs);
  }

  lemma {:induction false} ImportExportedConnections(ids: set<BubbleId>, cs: seq<Connection>)
    requires NoDuplicatePairs(cs)
    requires forall c :: c in cs ==> c.start in ids && c.end in ids
    ensures ImportConnections(ids, ExportConnections(cs)) == NormalizedAll(cs)
  {
    if cs != [] {
      var n := |cs| - 1;
      PrefixNoDuplicates(cs, n);
      assert forall x :: x in cs[..n] ==> x in cs;
      ImportExportedConnections(ids, cs[..n]);
      assert cs[n] in cs;
      ImportExportedLast(ids, cs);
    }
  }

  /** Round trip of exportData and importData: for a valid scene, exporting,
      importing and exporting again yields the first export. */
  lemma RoundTrip(s: SceneState)
    requires SceneValid(s.bubbles, s.connections) && ColorsFound(s.bubbles) && s.zoomLevel != 0.0
    ensures ExportScene(ImportScene(ExportScene(s))) == ExportScene(s)
  {
    var doc := ExportScene(s);
    ExportedColorsFound(s.bubbles);
    assert doc.bubbles[..KnownPrefix(doc.bubbles)] == doc.bubbles;
    var s2 := ImportScene(doc);
    assert ExportBubbles(s2.bubbles) == doc.bubbles by {
      BubblesRoundTrip(doc.bubbles);
    }
    assert ExportConnections(s2.connections) == doc.connections by {
      ExportedIds(s.bubbles);
      ImportExportedConnections(Ids(s.bubbles), s.connections);
      NormalizedExportsAlike(s.connections);
    }
  }

  /** Importing and exporting bubble records gives them back. */
  lemma BubblesRoundTrip(ds: seq<BubbleData>)
    ensures ExportBubbles(ImportBubbles(ds)) == ds
  {
    assert forall i :: 0 <= i < |ds| ==> ExportBubble(ImportBubble(ds[i])) == ds[i];
  }

  /** A normalised connection exports like the original. */
  lemma NormalizedExportsAlike(cs: seq<Connection>)
    ensures ExportConnections(NormalizedAll(cs)) == ExportConnections(cs)
  {
    assert forall i :: 0 <= i < |cs| ==> ExportConnection(Normalized(cs[i])) == ExportConnection(cs[i]);
  }

  /** Bubbles whose colours are in the colour table export as records that
      importData gets through entirely. */
  lemma ExportedColorsFound(bs: seq<Bubble>)
    requires ColorsFound(bs)
    ensures KnownPrefix(ExportBubbles(bs)) == |bs|
  {
    var ds := ExportBubbles(bs);
    forall i | 0 <= i < |ds| ensures ColorFound(ds[i].color) {
      assert bs[i] in bs;
    }
  }

  lemma ExportedIds(bs: seq<Bubble>)
    ensures DocIds(ExportBubbles(bs)) == Ids(bs)
  {
    var ds := ExportBubbles(bs);
    forall x | x in Ids(bs) ensures x in DocIds(ds) {
      var b :| b in bs && b.id == x;
      var i :| 0 <= i < |bs| && bs[i] == b;
      assert ds[i] in ds;
    }
  }

  /** Two records joining new pairs import as two plain connections. */
  /** The first record of that document, a -> b, is appended as it is. */
  lemma ImportFirstRecord(ids: set<BubbleId>)
    requires "a" in ids && "b" in ids
    ensures ImportConnections(ids, [ConnectionData("a", "b", Solid, None)]) == [Connection("a", "b", Solid, None)]
  {
    var ab := ConnectionData("a", "b", Solid, None);
    ImportConnectionsSnoc(ids, [ab]);
    assert [ab][..0] == [];
    ImportStepFresh([], ids, ab);
  }

  lemma ImportTwoFresh(ids: set<BubbleId>)
    requires "a" in ids && "b" in ids && "c" in ids
    ensures ImportConnections(ids, [ConnectionData("a", "b", Solid, None), ConnectionData("b", "c", Solid, None)])
         == [Connection("a", "b", Solid, None), Connection("b", "c", Solid, None)]
  {
    var ab := ConnectionData("a", "b", Solid, None);
    var bc := ConnectionData("b", "c", Solid, None);
    var cAB := Connection("a", "b", Solid, None);
    var cBC := Connection("b", "c", Solid, None);
    ImportFirstRecord(ids);
    assert !HasPair([cAB], "b", "c") by {
      forall x | x in [cAB] ensures !SamePair(x, "b", "c") {
        assert x == cAB;
      }
    }
    ImportConnectionsSnoc(ids, [ab, bc]);
    assert [ab, bc][..1] == [ab];
    ImportStepFresh([cAB], ids, bc);
  }

  /** importData reproduces the colour quirk of a skipped duplicate: with
      bubbles a, b and c known, the record b -> a (colour "red") duplicates
      a -> b and is skipped, and its colour lands on b -> c, the connection
      that happened to be last. */
  lemma DuplicateColourLandsOnLast(ids: set<BubbleId>)
    requires "a" in ids && "b" in ids && "c" in ids
    ensures ImportConnections(ids, [ConnectionData("a", "b", Solid, None),
                                    ConnectionData("b", "c", Solid, None),
                                    ConnectionData("b", "a", Solid, Some("red"))])
         == [Connection("a", "b", Solid, None), Connection("b", "c", Solid, Some("red"))]
  {
    var two := [Connection("a", "b", Solid, None), Connection("b", "c", Solid, None)];
    ImportThirdRecord(ids);
    assert two[0] in two && SamePair(two[0], "b", "a");
    ImportStepDuplicate(two, ids, ConnectionData("b", "a", Solid, Some("red")));
  }

  /** The third record of that document is one import step after the
      first two. */
  lemma ImportThirdRecord(ids: set<BubbleId>)
    requires "a" in ids && "b" in ids && "c" in ids
    ensures ImportConnections(ids, [ConnectionData("a", "b", Solid, None),
                                    ConnectionData("b", "c", Solid, None),
                                    ConnectionData("b", "a", Solid, Some("red"))])
         == ImportStep([Connection("a", "b", Solid, None), Connection("b", "c", Solid, None)],
                       ids, ConnectionData("b", "a", Solid, Some("red")))
  {
    var ab := ConnectionData("a", "b", Solid, None);
    var bc := ConnectionData("b", "c", Solid, None);
    var ba := ConnectionData("b", "a", Solid, Some("red"));
    ImportConnectionsSnoc(ids, [ab, bc, ba]);
    assert [ab, bc, ba][..2] == [ab, bc];
    ImportTwoFresh(ids);
  }

}
