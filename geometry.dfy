/** The country-boundary catalogue: the shapefile cut down to its `NAME` and
    `geometry` columns, with every Antarctica row dropped, and the copy that
    carries each shape's centroid. */
module Geometry {

  datatype Point = Point(x: real, y: real)

  /** A polygon or multipolygon, as its rings of vertices. */
  datatype Shape = Shape(rings: seq<seq<Point>>)

  /** A shapefile record: its attribute columns by name, and its shape. */
  datatype ShapeRow = ShapeRow(fields: map<string, string>, geometry: Shape)

  /** A record reduced to the two retained columns. */
  datatype Feature = Feature(name: string, geometry: Shape)

  /** A retained record with the centroid's coordinates attached. */
  datatype PointRow = PointRow(name: string, geometry: Shape, x: real, y: real)

  /** The one region left out of the map. */
  const Excluded := "Antarctica"

  /** Every record has a `NAME` attribute, so `shapefile[['NAME',
      'geometry']]` can select it. */
  predicate HasNames(rows: seq<ShapeRow>)
  {
    forall i :: 0 <= i < |rows| ==> "NAME" in rows[i].fields
  }

  /** `shapefile[columns]`: each record keeps its name and shape and nothing
      else, in the original order. */
  function SelectColumns(rows: seq<ShapeRow>): (r: seq<Feature>)
    requires HasNames(rows)
    ensures |r| == |rows|
    ensures forall i :: 0 <= i < |rows| ==> r[i] == Feature(rows[i].fields["NAME"], rows[i].geometry)
  {
    seq(|rows|, i requires 0 <= i < |rows| => Feature(rows[i].fields["NAME"], rows[i].geometry))
  }

  /** Drops every feature called name (`shapefile.drop(index_of_name)`). */
  function DropName(fs: seq<Feature>, name: string): (r: seq<Feature>)
    ensures forall i :: 0 <= i < |r| ==> r[i].name != name
    ensures |r| <= |fs|
  {
    if |fs| == 0 then []
    else if fs[0].name == name then DropName(fs[1..], name)
    else [fs[0]] + DropName(fs[1..], name)
  }

  /** A feature survives the drop exactly when it was there and does not
      carry the dropped name. */
  lemma {:induction false} DropNameMembers(fs: seq<Feature>, name: string, f: Feature)
    ensures f in DropName(fs, name) <==> f in fs && f.name != name
  {
    if |fs| > 0 {
      DropNameMembers(fs[1..], name, f);
      assert fs == [fs[0]] + fs[1..];
    }
  }

  /** Dropping works row by row, so it keeps the surviving rows in their
      original relative order: the survivors of a concatenation are the
      survivors of each part, one after the other. */
  lemma {:induction false} DropNameKeepsOrder(a: seq<Feature>, b: seq<Feature>, name: string)
    ensures DropName(a + b, name) == DropName(a, name) + DropName(b, name)
  {
    if |a| > 0 {
      DropNameKeepsOrder(a[1..], b, name);
      assert (a + b)[0] == a[0] && (a + b)[1..] == a[1..] + b;
      var rest, tail := DropName(a[1..], name), DropName(b, name);
      if a[0].name != name {
        assert [a[0]] + (rest + tail) == ([a[0]] + rest) + tail;
      }
    } else {
      assert a + b == b;
    }
  }

  /** Nothing else is removed: a catalogue without the excluded name passes
      unchanged, so dropping twice is dropping once. */
  lemma {:induction false} DropNameIdle(fs: seq<Feature>, name: string)
    requires forall i :: 0 <= i < |fs| ==> fs[i].name != name
    ensures DropName(fs, name) == fs
  {
    if |fs| > 0 {
      DropNameIdle(fs[1..], name);
    }
  }

  /** The retained catalogue: name and shape only, Antarctica gone. */
  function Catalogue(rows: seq<ShapeRow>): (r: seq<Feature>)
    requires HasNames(rows)
  {
    DropName(SelectColumns(rows), Excluded)
  }

  /** A feature is in the catalogue exactly when some record has its name and
      shape and that name is not Antarctica. */
  lemma CatalogueMembers(rows: seq<ShapeRow>, f: Feature)
    requires HasNames(rows)
    ensures f in Catalogue(rows) <==>
      f.name != Excluded && exists i :: 0 <= i < |rows| && rows[i].fields["NAME"] == f.name && rows[i].geometry == f.geometry
  {
    var sel := SelectColumns(rows);
    DropNameMembers(sel, Excluded, f);
    if f in sel {
      var i :| 0 <= i < |sel| && sel[i] == f;
      assert rows[i].fields["NAME"] == f.name && rows[i].geometry == f.geometry;
    }
    if exists i :: 0 <= i < |rows| && rows[i].fields["NAME"] == f.name && rows[i].geometry == f.geometry {
      var i :| 0 <= i < |rows| && rows[i].fields["NAME"] == f.name && rows[i].geometry == f.geometry;
      assert sel[i] == f;
    }
  }

  /** `pointsfile['x'], pointsfile['y'] = centroid.x, centroid.y`: each
      feature with the coordinates of its shape's centroid. The centroid
      itself is computed by the geometry library and is a parameter here. */
  function AttachCentroids(fs: seq<Feature>, centroidOf: Shape -> Point): (r: seq<PointRow>)
    ensures |r| == |fs|
  {
    seq(|fs|, i requires 0 <= i < |fs| =>
      PointRow(fs[i].name, fs[i].geometry, centroidOf(fs[i].geometry).x, centroidOf(fs[i].geometry).y))
  }

  /** Row i of the centroid table is feature i, with the name and shape it
      had and the coordinates of that shape's centroid. */
  lemma CentroidRows(fs: seq<Feature>, centroidOf: Shape -> Point)
    ensures forall i :: 0 <= i < |fs| ==>
      AttachCentroids(fs, centroidOf)[i].name == fs[i].name &&
      AttachCentroids(fs, centroidOf)[i].geometry == fs[i].geometry &&
      Point(AttachCentroids(fs, centroidOf)[i].x, AttachCentroids(fs, centroidOf)[i].y) == centroidOf(fs[i].geometry)
  {
  }

  /** No point row carries the given name. */
  predicate NoneNamed(points: seq<PointRow>, name: string)
  {
    forall i :: 0 <= i < |points| ==> points[i].name != name
  }

  /** The centroid table never contains Antarctica, and it contains a name
      only if some shapefile record has it. */
  lemma PointsFromCatalogue(rows: seq<ShapeRow>, centroidOf: Shape -> Point, name: string)
    requires HasNames(rows)
    requires forall i :: 0 <= i < |rows| ==> rows[i].fields["NAME"] != name
    ensures NoneNamed(AttachCentroids(Catalogue(rows), centroidOf), Excluded)
    ensures NoneNamed(AttachCentroids(Catalogue(rows), centroidOf), name)
  {
    var cat := Catalogue(rows);
    var pts := AttachCentroids(cat, centroidOf);
    CentroidRows(cat, centroidOf);
    forall i | 0 <= i < |pts|
      ensures pts[i].name != name
    {
      assert cat[i] in cat;
      CatalogueMembers(rows, cat[i]);
    }
  }
}
