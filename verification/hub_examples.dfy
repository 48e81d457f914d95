/** A worked frame: three 10 x 10 targets, 20 pixels apart, seen by a camera
    whose frame centre is at x = 50. */
module HubExamples {
  import opened Int32
  import opened Results
  import opened Json
  import opened Deadeye
  import opened Hub
  import opened HubJson
  import opened HubJsonEncode

  function Row(x: i32, y: i32, w: i32, h: i32, area: i32): Value {
    JArray([Num(x), Num(y), Num(w), Num(h), Num(area)])
  }

  /** `{"id":"a","sn":1,"v":true,"d":[[0,0,10,10,100],[20,0,10,10,100],[40,0,10,10,100]]}` */
  function ExampleFrame(): Value {
    JObject([Member("id", JString("a")), Member("sn", Num(1)), Member("v", JBool(true)),
             Member("d", JArray([Row(0, 0, 10, 10, 100), Row(20, 0, 10, 10, 100), Row(40, 0, 10, 10, 100)]))])
  }

  /** The frame decodes to rects (0,0)-(10,10), (20,0)-(30,10) and
      (40,0)-(50,10); it is valid; its pixel error is (10 + 40) / 2 - 50 = -25,
      so the group is left of centre and the angle is positive. */
  lemma ExampleFrameGeometry()
    ensures Decode(ExampleFrame()).Ok?
    ensures var d := Decode(ExampleFrame()).value;
      d.id == "a" && d.serial == 1 && d.valid &&
      d.targets == [Rect(Point(0, 0), Point(10, 10), 100), Rect(Point(20, 0), Point(30, 10), 100),
                    Rect(Point(40, 0), Point(50, 10), 100)] &&
      IsValid(d) && ErrorPixels(d, 50) == -25.0 && ErrorRadians(d, 50) > 0.0
  {
    var ts := [Rect(Point(0, 0), Point(10, 10), 100), Rect(Point(20, 0), Point(30, 10), 100),
               Rect(Point(40, 0), Point(50, 10), 100)];
    var d := HubTargetData("a", 1, true, 0.0, 0.0, ts);
    EncodeTargetsAt(ts);
    assert EncodeRect(ts[0]) == Row(0, 0, 10, 10, 100);
    assert EncodeRect(ts[1]) == Row(20, 0, 10, 10, 100);
    assert EncodeRect(ts[2]) == Row(40, 0, 10, 10, 100);
    assert EncodeTargets(ts) == [Row(0, 0, 10, 10, 100), Row(20, 0, 10, 10, 100), Row(40, 0, 10, 10, 100)];
    assert Encode(d) == ExampleFrame();
    RoundTrip(d);
    assert Add(MaxX(d), MinX(d)) == 50;
    ErrorRadiansSign(d, 50);
  }
}
