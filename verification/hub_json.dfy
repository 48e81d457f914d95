/** `HubTargetData.JsonAdapterImpl`: the wire format of Hub target data.
    `fromJson` reads an object whose keys are among `id, sn, v, ep, r, d`;
    each row `[x, y, w, h, area]` under `d` becomes a `Rect`. `toJson` writes
    `id, sn, v, d`. */
module HubJson {
  import opened Int32
  import opened Results
  import opened Json
  import opened Deadeye
  import opened Hub

  /** `DATA_LENGTH`: the number of integers in one row of `d`. */
  const DataLength: nat := 5

  /** `OPTIONS`: the names `selectName` recognises, in index order. */
  const Options: seq<string> := ["id", "sn", "v", "ep", "r", "d"]

  /** `selectName(OPTIONS)`: the index of a name in `OPTIONS`, or -1. */
  function SelectName(name: string): (r: int)
    ensures -1 <= r < |Options|
    ensures r >= 0 ==> Options[r] == name
  {
    var r :=
      if |name| == 1 then
        if name[0] == 'v' then 2 else if name[0] == 'r' then 4 else if name[0] == 'd' then 5 else -1
      else if |name| == 2 then
        if name[0] == 'i' && name[1] == 'd' then 0
        else if name[0] == 's' && name[1] == 'n' then 1
        else if name[0] == 'e' && name[1] == 'p' then 3
        else -1
      else -1;
    assert r >= 0 ==> name == Options[r];
    r
  }

  /** `selectName` returns -1 exactly for the names outside `OPTIONS`. */
  lemma SelectNameUnknown(name: string)
    ensures SelectName(name) == -1 <==> name !in Options
  {
    if name in Options {
      var i :| 0 <= i < |Options| && Options[i] == name;
      assert SelectName(Options[i]) == i;
    }
  }

  /** Why `fromJson` throws. */
  datatype DecodeError =
    | NotAnObject               // `beginObject()` on anything but an object
    | UnexpectedName(name: string)  // the `IllegalStateException` for a name outside `OPTIONS`
    | BadValue(name: string)    // a read of the wrong token kind, or a row that is not five integers

  // ---------------------------------------------------------------------------
  // The decoder's specification

  /** One row of `d` as a `Rect`: corners `(x, y)` and `(x + w, y + h)` (as
      `Int` sums), or None when the row is not an array of exactly five
      integers. */
  function RowRect(row: Value): Option<Rect> {
    if row.JArray? && |row.items| == DataLength
       && NextInt(row.items[0]).Some? && NextInt(row.items[1]).Some? && NextInt(row.items[2]).Some?
       && NextInt(row.items[3]).Some? && NextInt(row.items[4]).Some?
    then
      var x, y := NextInt(row.items[0]).value, NextInt(row.items[1]).value;
      var w, h := NextInt(row.items[2]).value, NextInt(row.items[3]).value;
      Some(Rect(Point(x, y), Point(Add(x, w), Add(y, h)), NextInt(row.items[4]).value))
    else None
  }

  /** The rects of the well-formed rows, in row order. */
  function RectsOf(rows: seq<Value>): seq<Rect> {
    if rows == [] then []
    else
      RectsOf(rows[..|rows| - 1]) +
      match RowRect(rows[|rows| - 1]) { case Some(t) => [t] case None => [] }
  }

  /** Whether one member can be read: a known name with a value of the kind
      that name is read as. */
  predicate MemberOk(m: Member) {
    var option := SelectName(m.name);
    if option == 0 then NextString(m.value).Some?
    else if option == 1 then NextInt(m.value).Some?
    else if option == 2 then NextBoolean(m.value).Some?
    else if option == 3 || option == 4 then NextDouble(m.value).Some?
    else if option == 5 then
      m.value.JArray? && forall i :: 0 <= i < |m.value.items| ==> RowRect(m.value.items[i]).Some?
    else false
  }

  /** The exception the first unreadable member raises. */
  function MemberError(m: Member): DecodeError {
    if SelectName(m.name) >= 0 then BadValue(m.name) else UnexpectedName(m.name)
  }

  /** The index of the first unreadable member, if any. */
  function FirstBad(ms: seq<Member>): (r: Option<nat>)
    ensures r.None? <==> forall j :: 0 <= j < |ms| ==> MemberOk(ms[j])
    ensures r.Some? ==> r.value < |ms| && !MemberOk(ms[r.value])
    ensures r.Some? ==> forall j :: 0 <= j < r.value ==> MemberOk(ms[j])
  {
    if ms == [] then None
    else if !MemberOk(ms[0]) then Some(0)
    else match FirstBad(ms[1..]) {
      case None => None
      case Some(i) => Some(i + 1)
    }
  }

  /** The value of the last member whose name is `Options[option]`. */
  function Last(ms: seq<Member>, option: int): Option<Value> {
    if ms == [] then None
    else if SelectName(ms[|ms| - 1].name) == option then Some(ms[|ms| - 1].value)
    else Last(ms[..|ms| - 1], option)
  }

  function LastId(ms: seq<Member>): string {
    match Last(ms, 0) { case None => "" case Some(v) => NextString(v).GetOr("") }
  }

  function LastSerial(ms: seq<Member>): i32 {
    match Last(ms, 1) { case None => -1 case Some(v) => NextInt(v).GetOr(-1) }
  }

  function LastValid(ms: seq<Member>): bool {
    match Last(ms, 2) { case None => false case Some(v) => NextBoolean(v).GetOr(false) }
  }

  function LastDouble(ms: seq<Member>, option: int): real {
    match Last(ms, option) { case None => 0.0 case Some(v) => NextDouble(v).GetOr(0.0) }
  }

  /** The rows of every `d` member, one member after the other. */
  function TargetsOf(ms: seq<Member>): seq<Rect> {
    if ms == [] then []
    else
      var m := ms[|ms| - 1];
      TargetsOf(ms[..|ms| - 1]) + if SelectName(m.name) == 5 && m.value.JArray? then RectsOf(m.value.items) else []
  }

  /** What `fromJson` returns or throws: the first unreadable member decides
      the error; otherwise each scalar field holds the last value given for
      it (or its default) and the targets are all rows in document order. */
  function Decode(source: Value): Result<HubTargetData, DecodeError> {
    if !source.JObject? then Err(NotAnObject)
    else
      var ms := source.members;
      match FirstBad(ms) {
        case Some(i) => Err(MemberError(ms[i]))
        case None => Ok(Fields(ms))
      }
  }

  /** The record that readable members describe. */
  function Fields(ms: seq<Member>): HubTargetData {
    HubTargetData(LastId(ms), LastSerial(ms), LastValid(ms),
                  LastDouble(ms, 3), LastDouble(ms, 4), TargetsOf(ms))
  }

  /** What one member read by `fromJson` does to the fields read so far. */
  function Absorb(acc: HubTargetData, m: Member): HubTargetData {
    match SelectName(m.name)
    case 0 => acc.(id := NextString(m.value).GetOr(""))
    case 1 => acc.(serial := NextInt(m.value).GetOr(-1))
    case 2 => acc.(valid := NextBoolean(m.value).GetOr(false))
    case 3 => acc.(errorPixels := NextDouble(m.value).GetOr(0.0))
    case 4 => acc.(range := NextDouble(m.value).GetOr(0.0))
    case 5 => acc.(targets := acc.targets + if m.value.JArray? then RectsOf(m.value.items) else [])
    case _ => acc
  }

  // ---------------------------------------------------------------------------
  // The decoder

  /** Reading one more member changes only the field it names. */
  lemma DecodeStep(ms: seq<Member>, k: nat)
    requires k < |ms|
    ensures Fields(ms[..k + 1]) == Absorb(Fields(ms[..k]), ms[k])
  {
    assert ms[..k + 1][..k] == ms[..k];
  }

  /** A member that cannot be read after readable ones is the first bad one. */
  lemma {:induction false} FirstBadAt(ms: seq<Member>, k: nat)
    requires k < |ms| && !MemberOk(ms[k])
    requires forall j :: 0 <= j < k ==> MemberOk(ms[j])
    ensures FirstBad(ms) == Some(k)
  {
    if k > 0 {
      assert MemberOk(ms[0]);
      FirstBadAt(ms[1..], k - 1);
    }
  }

  /** One row of `d`: five `nextInt()` calls into an `IntArray`, then the
      `Rect` built from them. */
  method ReadRow(row: Value) returns (r: Option<Rect>)
    ensures r == RowRect(row)
  {
    if !row.JArray? {
      return None;
    }
    var data := new i32[DataLength];
    var i := 0;
    while i < DataLength
      invariant 0 <= i <= DataLength && i <= |row.items|
      invariant forall t :: 0 <= t < i ==> NextInt(row.items[t]) == Some(data[t])
    {
      if i == |row.items| {
        return None;
      }
      var n := NextInt(row.items[i]);
      if n.None? {
        return None;
      }
      data[i] := n.value;
      i := i + 1;
    }
    if |row.items| != DataLength {
      return None;
    }
    var topLeft := Point(data[0], data[1]);
    var bottomRight := Point(Add(data[0], data[2]), Add(data[1], data[3]));
    return Some(Rect(topLeft, bottomRight, data[4]));
  }

  /** The array under `d`: every row appended to `targets` in order, or None
      at the first row that cannot be read. */
  method ReadRows(rows: seq<Value>, targets: seq<Rect>) returns (r: Option<seq<Rect>>)
    ensures r.Some? <==> forall t :: 0 <= t < |rows| ==> RowRect(rows[t]).Some?
    ensures r.Some? ==> r.value == targets + RectsOf(rows)
  {
    var acc := targets;
    var j := 0;
    while j < |rows|
      invariant 0 <= j <= |rows|
      invariant forall t :: 0 <= t < j ==> RowRect(rows[t]).Some?
      invariant acc == targets + RectsOf(rows[..j])
    {
      var t := ReadRow(rows[j]);
      if t.None? {
        return None;
      }
      assert rows[..j + 1][..j] == rows[..j];
      acc := acc + [t.value];
      j := j + 1;
    }
    assert rows[..j] == rows;
    return Some(acc);
  }

  /** One pass of the `while (reader.hasNext())` loop: the `when` on
      `selectName(OPTIONS)` and the read of that member's value. */
  method ReadMember(acc: HubTargetData, m: Member) returns (r: Result<HubTargetData, DecodeError>)
    ensures r.Ok? <==> MemberOk(m)
    ensures r.Ok? ==> r.value == Absorb(acc, m)
    ensures r.Err? ==> r.error == MemberError(m)
  {
    var option := SelectName(m.name);
    if option == 0 {
      var s := NextString(m.value);
      if s.None? { return Err(BadValue(m.name)); }
      r := Ok(acc.(id := s.value));
    } else if option == 1 {
      var n := NextInt(m.value);
      if n.None? { return Err(BadValue(m.name)); }
      r := Ok(acc.(serial := n.value));
    } else if option == 2 {
      var b := NextBoolean(m.value);
      if b.None? { return Err(BadValue(m.name)); }
      r := Ok(acc.(valid := b.value));
    } else if option == 3 {
      var x := NextDouble(m.value);
      if x.None? { return Err(BadValue(m.name)); }
      r := Ok(acc.(errorPixels := x.value));
    } else if option == 4 {
      var x := NextDouble(m.value);
      if x.None? { return Err(BadValue(m.name)); }
      r := Ok(acc.(range := x.value));
    } else if option == 5 {
      if !m.value.JArray? { return Err(BadValue(m.name)); }
      var rows := ReadRows(m.value.items, acc.targets);
      if rows.None? { return Err(BadValue(m.name)); }
      r := Ok(acc.(targets := rows.value));
    } else {
      r := Err(UnexpectedName(m.name));
    }
  }

  /** `JsonAdapterImpl.fromJson`: reads the object member by member, keeping
      the last value of each field, and throws at the first member it cannot
      read. */
  method FromJson(source: Value) returns (result: Result<HubTargetData, DecodeError>)
    ensures result == Decode(source)
  {
    if !source.JObject? {
      return Err(NotAnObject);
    }
    var ms := source.members;
    var acc := HubTargetData("", -1, false, 0.0, 0.0, []);
    var k := 0;
    while k < |ms|
      invariant 0 <= k <= |ms|
      invariant forall j :: 0 <= j < k ==> MemberOk(ms[j])
      invariant acc == Fields(ms[..k])
    {
      var r := ReadMember(acc, ms[k]);
      if r.Err? {
        FirstBadAt(ms, k);
        return Err(r.error);
      }
      DecodeStep(ms, k);
      acc := r.value;
      k := k + 1;
    }
    assert ms[..k] == ms;
    return Ok(acc);
  }
}

module HubJsonEncode {
  import opened Int32
  import opened Results
  import opened Json
  import opened Deadeye
  import opened Hub
  import opened HubJson
  import opened HubJsonFacts

  // ---------------------------------------------------------------------------
  // The encoder

  /** One target as written: `[topLeft.x, topLeft.y, width, height, area]`. */
  function EncodeRect(t: Rect): Value {
    JArray([Num(t.topLeft.x), Num(t.topLeft.y), Num(t.Width()), Num(t.Height()), Num(t.contourArea)])
  }

  function EncodeTargets(ts: seq<Rect>): seq<Value> {
    if ts == [] then [] else EncodeTargets(ts[..|ts| - 1]) + [EncodeRect(ts[|ts| - 1])]
  }

  /** What `toJson` writes. */
  function Encode(d: HubTargetData): (v: Value)
    ensures v.JObject? && |v.members| == 4
    ensures v.members[0].name == "id" && v.members[1].name == "sn"
    ensures v.members[2].name == "v" && v.members[3].name == "d"
  {
    JObject([Member("id", JString(d.id)), Member("sn", Num(d.serial)), Member("v", JBool(d.valid)),
             Member("d", JArray(EncodeTargets(d.targets)))])
  }

  /** `toJson`: the scalar fields, then one row per target in list order. */
  method ToJson(d: HubTargetData) returns (json: Value)
    ensures json == Encode(d)
  {
    var members := [Member("id", JString(d.id))];
    members := members + [Member("sn", Num(d.serial))];
    members := members + [Member("v", JBool(d.valid))];
    var rows: seq<Value> := [];
    var i := 0;
    while i < |d.targets|
      invariant 0 <= i <= |d.targets|
      invariant rows == EncodeTargets(d.targets[..i])
    {
      var t := d.targets[i];
      assert d.targets[..i + 1][..i] == d.targets[..i];
      rows := rows + [JArray([Num(t.topLeft.x), Num(t.topLeft.y), Num(t.Width()), Num(t.Height()), Num(t.contourArea)])];
      i := i + 1;
    }
    assert d.targets[..i] == d.targets;
    members := members + [Member("d", JArray(rows))];
    return JObject(members);
  }

  // ---------------------------------------------------------------------------
  // Round trip

  /** A written row reads back as the same rect: the width and height that
      `toJson` derives from the corners restore the corners, even when the
      `Int` arithmetic wraps. */
  lemma RowRectEncodeRect(t: Rect)
    ensures RowRect(EncodeRect(t)) == Some(t)
  {
    NextIntNum(t.topLeft.x);
    NextIntNum(t.topLeft.y);
    NextIntNum(t.Width());
    NextIntNum(t.Height());
    NextIntNum(t.contourArea);
    AddSubCancel(t.topLeft.x, t.bottomRight.x);
    AddSubCancel(t.topLeft.y, t.bottomRight.y);
  }

  /** Row `i` of the written array is target `i`. */
  lemma {:induction false} EncodeTargetsAt(ts: seq<Rect>)
    ensures |EncodeTargets(ts)| == |ts|
    ensures forall i :: 0 <= i < |ts| ==> EncodeTargets(ts)[i] == EncodeRect(ts[i])
  {
    if ts != [] {
      EncodeTargetsAt(ts[..|ts| - 1]);
    }
  }

  /** Reading the written rows gives back the targets. */
  lemma {:induction false} RectsOfEncodeTargets(ts: seq<Rect>)
    ensures RectsOf(EncodeTargets(ts)) == ts
  {
    if ts != [] {
      var init, last := ts[..|ts| - 1], ts[|ts| - 1];
      var rows := EncodeTargets(ts);
      assert rows == EncodeTargets(init) + [EncodeRect(last)];
      EncodeTargetsAt(init);
      assert rows[..|rows| - 1] == EncodeTargets(init);
      assert rows[|rows| - 1] == EncodeRect(last);
      RowRectEncodeRect(last);
      calc {
        RectsOf(rows);
        RectsOf(EncodeTargets(init)) + [last];
        { RectsOfEncodeTargets(init); }
        init + [last];
        ts;
      }
    }
  }

  /** `fromJson(toJson(d))` gives back `d`'s id, serial, flag and every
      target, in order; `errorPixels` and `range` are not written and come
      back as their defaults. */
  lemma RoundTrip(d: HubTargetData)
    ensures Decode(Encode(d)) == Ok(HubTargetData(d.id, d.serial, d.valid, 0.0, 0.0, d.targets))
  {
    var v := Encode(d);
    EncodeReadable(d);
    DecodeOkFields(v);
    EncodeFields(d);
  }

  /** The fields that the written members give, each as its last value. */
  lemma EncodeFields(d: HubTargetData)
    ensures var ms := Encode(d).members;
      LastId(ms) == d.id && LastSerial(ms) == d.serial && LastValid(ms) == d.valid &&
      LastDouble(ms, 3) == 0.0 && LastDouble(ms, 4) == 0.0 && TargetsOf(ms) == d.targets
  {
    EncodeScalars(d);
    EncodeTargetsField(d);
  }

  lemma EncodeScalars(d: HubTargetData)
    ensures var ms := Encode(d).members;
      LastId(ms) == d.id && LastSerial(ms) == d.serial && LastValid(ms) == d.valid &&
      LastDouble(ms, 3) == 0.0 && LastDouble(ms, 4) == 0.0
  {
    var ms := Encode(d).members;
    LastWins(ms, 0, 0);
    LastWins(ms, 1, 1);
    LastWins(ms, 2, 2);
    LastAbsent(ms, 3);
    LastAbsent(ms, 4);
    NextIntNum(d.serial);
  }

  lemma EncodeTargetsField(d: HubTargetData)
    ensures TargetsOf(Encode(d).members) == d.targets
  {
    var ms := Encode(d).members;
    assert ms == ms[..3] + [ms[3]];
    TargetsOfAppend(ms[..3], [ms[3]]);
    TargetsOfWithoutD(ms[..3]);
    assert [ms[3]][..0] == [];
    RectsOfEncodeTargets(d.targets);
  }

  /** Every member `toJson` writes can be read. */
  lemma EncodeReadable(d: HubTargetData)
    ensures FirstBad(Encode(d).members) == None
  {
    var ms := Encode(d).members;
    NextIntNum(d.serial);
    EncodeTargetsAt(d.targets);
    forall i | 0 <= i < |d.targets|
      ensures RowRect(EncodeTargets(d.targets)[i]).Some?
    {
      RowRectEncodeRect(d.targets[i]);
    }
    assert MemberOk(ms[0]) && MemberOk(ms[1]) && MemberOk(ms[2]);
    assert MemberOk(ms[3]);
  }

  /** Hence decoding, encoding and decoding again gives the same record as
      the first decode, but for the dropped `ep` and `r` values. */
  lemma DecodeEncodeDecode(source: Value)
    requires Decode(source).Ok?
    ensures var d := Decode(source).value;
      Decode(Encode(d)) == Ok(HubTargetData(d.id, d.serial, d.valid, 0.0, 0.0, d.targets))
  {
    RoundTrip(Decode(source).value);
  }
}

module HubJsonFacts {
  import opened Int32
  import opened Results
  import opened Json
  import opened Deadeye
  import opened Hub
  import opened HubJson

  /** A row of five in-range integers `[x, y, w, h, area]` becomes the rect
      with corners `(x, y)` and `(x + w, y + h)` and that area. */
  lemma RowRectCorners(x: i32, y: i32, w: i32, h: i32, area: i32)
    requires InRange(x as int + w as int) && InRange(y as int + h as int)
    ensures RowRect(JArray([Num(x), Num(y), Num(w), Num(h), Num(area)])).Some?
    ensures var t := RowRect(JArray([Num(x), Num(y), Num(w), Num(h), Num(area)])).value;
      t.topLeft == Point(x, y) && t.contourArea == area &&
      t.bottomRight.x as int == x as int + w as int && t.bottomRight.y as int == y as int + h as int
  {
    NextIntNum(x);
    NextIntNum(y);
    NextIntNum(w);
    NextIntNum(h);
    NextIntNum(area);
  }

  /** The rows are turned into rects one for one, in order: none is dropped,
      reordered or added. */
  lemma {:induction false} RectsOfInOrder(rows: seq<Value>)
    requires forall i :: 0 <= i < |rows| ==> RowRect(rows[i]).Some?
    ensures |RectsOf(rows)| == |rows|
    ensures forall i :: 0 <= i < |rows| ==> RectsOf(rows)[i] == RowRect(rows[i]).value
  {
    if rows != [] {
      RectsOfInOrder(rows[..|rows| - 1]);
    }
  }

  /** The targets of consecutive members are concatenated: a repeated `d`
      adds its rows after the earlier ones. */
  lemma {:induction false} TargetsOfAppend(ms: seq<Member>, ns: seq<Member>)
    ensures TargetsOf(ms + ns) == TargetsOf(ms) + TargetsOf(ns)
  {
    if ns != [] {
      var init := ns[..|ns| - 1];
      assert (ms + ns)[..|ms + ns| - 1] == ms + init;
      TargetsOfAppend(ms, init);
    } else {
      assert ms + ns == ms;
    }
  }

  /** Members other than `d` add no targets. */
  lemma {:induction false} TargetsOfWithoutD(ms: seq<Member>)
    requires forall j :: 0 <= j < |ms| ==> SelectName(ms[j].name) != 5
    ensures TargetsOf(ms) == []
  {
    if ms != [] {
      TargetsOfWithoutD(ms[..|ms| - 1]);
    }
  }

  /** A name that does not occur has no last value. */
  lemma {:induction false} LastAbsent(ms: seq<Member>, option: nat)
    requires option < |Options|
    requires forall j :: 0 <= j < |ms| ==> SelectName(ms[j].name) != option
    ensures Last(ms, option) == None
  {
    if ms != [] {
      LastAbsent(ms[..|ms| - 1], option);
    }
  }

  /** The last occurrence of a name is the one that counts. */
  lemma {:induction false} LastWins(ms: seq<Member>, j: nat, option: nat)
    requires j < |ms| && SelectName(ms[j].name) == option
    requires forall t :: j < t < |ms| ==> SelectName(ms[t].name) != option
    ensures Last(ms, option) == Some(ms[j].value)
  {
    if j < |ms| - 1 {
      LastWins(ms[..|ms| - 1], j, option);
    }
  }

  /** A readable object decodes to the last value of each field. */
  lemma DecodeOkFields(source: Value)
    requires source.JObject? && FirstBad(source.members) == None
    ensures var ms := source.members;
      Decode(source) == Ok(HubTargetData(LastId(ms), LastSerial(ms), LastValid(ms),
                                         LastDouble(ms, 3), LastDouble(ms, 4), TargetsOf(ms)))
  {
  }

  /** `fromJson` succeeds exactly on objects whose every member has a known
      name and a value of the right kind. */
  lemma DecodeOkIff(source: Value)
    ensures Decode(source).Ok? <==>
      source.JObject? && forall j :: 0 <= j < |source.members| ==> MemberOk(source.members[j])
  {
  }

  /** A name outside `id, sn, v, ep, r, d` makes `fromJson` throw; when no
      earlier member is unreadable it throws for that name. */
  lemma DecodeRejectsUnknownName(source: Value, j: nat)
    requires source.JObject? && j < |source.members|
    requires source.members[j].name !in Options
    ensures Decode(source).Err?
    ensures (forall t :: 0 <= t < j ==> MemberOk(source.members[t])) ==>
      Decode(source) == Err(UnexpectedName(source.members[j].name))
  {
    var ms := source.members;
    SelectNameUnknown(ms[j].name);
    assert !MemberOk(ms[j]);
    if forall t :: 0 <= t < j ==> MemberOk(ms[t]) {
      FirstBadAt(ms, j);
    }
  }

  /** A key left out of the object leaves its default: empty id, serial -1,
      flag false, no targets. */
  lemma DecodeDefaults(source: Value, name: string)
    requires Decode(source).Ok?
    requires forall j :: 0 <= j < |source.members| ==> source.members[j].name != name
    ensures name == "id" ==> Decode(source).value.id == ""
    ensures name == "sn" ==> Decode(source).value.serial == -1
    ensures name == "v" ==> !Decode(source).value.valid
    ensures name == "d" ==> Decode(source).value.targets == []
  {
    var option := SelectName(name);
    if option >= 0 {
      LastAbsent(source.members, option);
    }
    if name == "d" {
      TargetsOfWithoutD(source.members);
    }
  }

  /** The empty object decodes to the defaults. */
  lemma DecodeEmptyObject()
    ensures Decode(JObject([])) == Ok(HubTargetData("", -1, false, 0.0, 0.0, []))
  {
  }

  /** A repeated scalar key keeps the value of its last occurrence. */
  lemma DecodeLastScalarWins(source: Value, j: nat)
    requires Decode(source).Ok? && j < |source.members|
    requires forall t :: j < t < |source.members| ==> source.members[t].name != source.members[j].name
    ensures var m, d := source.members[j], Decode(source).value;
      (m.name == "id" ==> JString(d.id) == m.value) &&
      (m.name == "sn" ==> Num(d.serial) == m.value) &&
      (m.name == "v" ==> JBool(d.valid) == m.value)
  {
    var ms := source.members;
    assert MemberOk(ms[j]);
    var option := SelectName(ms[j].name);
    if 0 <= option <= 2 {
      LastWins(ms, j, option);
    }
  }

  /** With a single `d` member, the targets are its rows, one for one and in
      order. */
  lemma DecodeSingleD(source: Value, j: nat)
    requires Decode(source).Ok? && j < |source.members| && source.members[j].name == "d"
    requires forall t :: 0 <= t < |source.members| && t != j ==> source.members[t].name != "d"
    ensures var rows, d := source.members[j].value.items, Decode(source).value;
      |d.targets| == |rows| &&
      forall i :: 0 <= i < |rows| ==> d.targets[i] == RowRect(rows[i]).value
  {
    var ms := source.members;
    assert FirstBad(ms) == None;
    DecodeOkFields(source);
    assert MemberOk(ms[j]);
    TargetsOfSingleD(ms, j);
    RectsOfInOrder(ms[j].value.items);
  }

  lemma {:induction false} TargetsOfSingleD(ms: seq<Member>, j: nat)
    requires j < |ms| && SelectName(ms[j].name) == 5 && ms[j].value.JArray?
    requires forall t :: 0 <= t < |ms| && t != j ==> SelectName(ms[t].name) != 5
    ensures TargetsOf(ms) == RectsOf(ms[j].value.items)
  {
    var init := ms[..|ms| - 1];
    if j == |ms| - 1 {
      TargetsOfWithoutD(init);
    } else {
      TargetsOfSingleD(init, j);
    }
  }

}
