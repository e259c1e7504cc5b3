/**
  The field-dropping normaliser and the trace comparison of tools/trace_validator.py.  Payloads are private
  deep copies in the source, so a JSON tree is a value here and dropping a field gives a new tree.
 */
module Normalise {
  import opened Values

  datatype Json =
    | Obj(fields: map<string, Json>)
    | Arr(items: seq<Json>)
    | Text(text: string)
    | Number(digits: string)
    | Flag(b: bool)
    | Null

  /** A dotted field path, already split at the dots. */
  type Path = seq<string>

  function DropPath(j: Json, path: Path): Json
    decreases path
  {
    if path == [] || !j.Obj? then j
    else
      var head := path[0];
      if |path| == 1 then Obj(j.fields - {head})
      else if head in j.fields && j.fields[head].Obj? then
        var child := DropPath(j.fields[head], path[1..]);
        if child == Obj(map[]) then Obj(j.fields - {head}) else Obj(j.fields[head := child])
      else j
  }

  function DropEach(j: Json, paths: seq<Path>): Json {
    if paths == [] then j else DropPath(DropEach(j, paths[..|paths| - 1]), paths[|paths| - 1])
  }

  // ----- dropping a set of paths all at once -----

  ghost function Tails(paths: set<Path>, key: string): set<Path> {
    set p | p in paths && |p| > 1 && p[0] == key :: p[1..]
  }

  /** What one field becomes: None when it is dropped or emptied. */
  ghost function DropField(j: Json, key: string, paths: set<Path>): Option<Json>
    requires j.Obj? && key in j.fields
    decreases j, 0
  {
    var child := j.fields[key];
    if [key] in paths then None
    else if Tails(paths, key) == {} || !child.Obj? then Some(child)
    else
      var rest := DropAll(child, Tails(paths, key));
      if rest == Obj(map[]) then None else Some(rest)
  }

  ghost function DropAll(j: Json, paths: set<Path>): Json
    decreases j, 1
  {
    if !j.Obj? then j
    else Obj(map key | key in j.fields && DropField(j, key, paths).Some? :: DropField(j, key, paths).value)
  }

  lemma {:induction false} DropNothing(j: Json)
    ensures DropAll(j, {}) == j
  {
    if j.Obj? {
      assert forall key :: key in j.fields ==> Tails({}, key) == {};
      assert DropAll(j, {}).fields == j.fields;
    }
  }

  lemma TailsGrow(paths: set<Path>, p: Path, key: string)
    ensures Tails(paths + {p}, key) == Tails(paths, key) + if |p| > 1 && p[0] == key then {p[1..]} else {}
  {
    var all := Tails(paths + {p}, key);
    forall t | t in Tails(paths, key) ensures t in all {
      var q :| q in paths && |q| > 1 && q[0] == key && q[1..] == t;
      assert q in paths + {p};
    }
    if |p| > 1 && p[0] == key {
      assert p in paths + {p};
    }
  }

  /** Fields away from the head of the path keep their fate. */
  lemma OtherField(j: Json, key: string, paths: set<Path>, p: Path)
    requires j.Obj? && key in j.fields && (p == [] || p[0] != key)
    ensures DropField(j, key, paths + {p}) == DropField(j, key, paths)
  {
    TailsGrow(paths, p, key);
    assert Tails(paths + {p}, key) == Tails(paths, key);
    assert p != [] ==> p[0] != [key][0];
  }

  /** The field at the head of a longer path is dropped further. */
  lemma {:induction false} HeadField(j: Json, key: string, paths: set<Path>, p: Path)
    requires j.Obj? && key in j.fields && |p| > 1 && p[0] == key
    ensures var was := DropField(j, key, paths);
            DropField(j, key, paths + {p})
            == if was.None? || !was.value.Obj? then was
               else if DropPath(was.value, p[1..]) == Obj(map[]) then None
               else Some(DropPath(was.value, p[1..]))
    decreases |p|, 0
  {
    hide DropAll, DropPath;
    TailsGrow(paths, p, key);
    var child, tails := j.fields[key], Tails(paths, key);
    if [key] !in paths && child.Obj? {
      DropOneMore(child, tails, p[1..]);
      DropNothing(child);
      if DropAll(child, tails) == Obj(map[]) {
        DropFromEmpty(p[1..]);
      }
      DropAllObj(child, tails);
    }
  }

  lemma DropAllObj(j: Json, paths: set<Path>)
    ensures DropAll(j, paths).Obj? == j.Obj?
  {
  }

  lemma DropFromEmpty(p: Path)
    ensures DropPath(Obj(map[]), p) == Obj(map[])
  {
    var none: map<string, Json> := map[];
    if |p| == 1 {
      assert none - {p[0]} == none;
    }
  }

  /** One more path dropped is one more path in the set. */
  lemma {:induction false} DropOneMore(j: Json, paths: set<Path>, p: Path)
    ensures DropPath(DropAll(j, paths), p) == DropAll(j, paths + {p})
    decreases |p|, 1
  {
    if j.Obj? {
      var before, after := DropAll(j, paths), DropAll(j, paths + {p});
      var dropped := DropPath(before, p);
      forall key | key in j.fields
        ensures key in dropped.fields <==> key in after.fields
        ensures key in after.fields ==> dropped.fields[key] == after.fields[key]
      {
        if p == [] || p[0] != key {
          OtherField(j, key, paths, p);
        } else if |p| > 1 {
          HeadField(j, key, paths, p);
        } else {
          assert p == [key];
          assert DropField(j, key, paths + {p}) == None by { assert [key] in paths + {p}; }
        }
      }
      assert dropped.fields == after.fields;
    }
  }

  function Members(paths: seq<Path>): set<Path> {
    set p | p in paths
  }

  /** Dropping the paths one after another is dropping their set at once. */
  lemma {:induction false} DropEachIsDropAll(j: Json, paths: seq<Path>)
    ensures DropEach(j, paths) == DropAll(j, Members(paths))
  {
    if paths == [] {
      DropNothing(j);
    } else {
      var front, last := paths[..|paths| - 1], paths[|paths| - 1];
      assert paths == front + [last];
      DropEachIsDropAll(j, front);
      DropOneMore(j, Members(front), last);
      assert Members(paths) == Members(front) + {last};
    }
  }

  lemma {:induction false} DropEachTwice(j: Json, p: seq<Path>, q: seq<Path>)
    ensures DropEach(DropEach(j, p), q) == DropEach(j, p + q)
    decreases |q|
  {
    if q == [] {
      assert p + q == p;
    } else {
      DropEachTwice(j, p, q[..|q| - 1]);
      assert (p + q)[..|p + q| - 1] == p + q[..|q| - 1];
    }
  }

  /** Order and repetition of the paths do not matter, and dropping them again changes nothing. */
  lemma {:induction false} NormalisationIsCanonical(j: Json, p: seq<Path>, q: seq<Path>)
    requires Members(p) == Members(q)
    ensures DropEach(j, p) == DropEach(j, q)
    ensures DropEach(DropEach(j, p), q) == DropEach(j, p)
  {
    DropEachIsDropAll(j, p);
    DropEachIsDropAll(j, q);
    DropEachTwice(j, p, q);
    DropEachIsDropAll(j, p + q);
    assert Members(p + q) == Members(p);
  }

  // ----- what is dropped and what is kept -----

  function Find(j: Json, path: Path): Option<Json>
    decreases path
  {
    if path == [] then Some(j)
    else if j.Obj? && path[0] in j.fields then Find(j.fields[path[0]], path[1..])
    else None
  }

  predicate Prefix(p: Path, q: Path) {
    |p| <= |q| && p == q[..|p|]
  }

  /** A value that is not an object survives exactly when no dropped path leads to it or above it. */
  lemma {:induction false} LeafSurvives(j: Json, paths: set<Path>, q: Path, leaf: Json)
    requires !leaf.Obj?
    ensures Find(DropAll(j, paths), q) == Some(leaf)
            <==> Find(j, q) == Some(leaf) && forall p :: p in paths && p != [] ==> !Prefix(p, q)
    decreases |q|
  {
    if q != [] && j.Obj? && q[0] in j.fields {
      var key, rest, child, tails := q[0], q[1..], j.fields[q[0]], Tails(paths, q[0]);
      PrefixesSplit(paths, q);
      if [key] !in paths && tails != {} && child.Obj? {
        LeafSurvives(child, tails, rest, leaf);
      } else if [key] !in paths && tails != {} {
        assert rest != [] ==> Find(child, rest) == None;
      }
    }
  }

  lemma PrefixesSplit(paths: set<Path>, q: Path)
    requires q != []
    ensures (exists p :: p in paths && p != [] && Prefix(p, q))
            <==> [q[0]] in paths || exists t :: t in Tails(paths, q[0]) && t != [] && Prefix(t, q[1..])
  {
    if p :| p in paths && p != [] && Prefix(p, q) {
      if |p| == 1 {
        assert p == [q[0]];
      } else {
        assert p[1..] in Tails(paths, q[0]) && Prefix(p[1..], q[1..]);
      }
    }
    if [q[0]] in paths {
      assert Prefix([q[0]], q);
    }
    if t :| t in Tails(paths, q[0]) && t != [] && Prefix(t, q[1..]) {
      var p :| p in paths && |p| > 1 && p[0] == q[0] && p[1..] == t;
      assert Prefix(p, q) by { assert q == [q[0]] + q[1..]; }
    }
  }

  /** Nothing is left at a dropped path. */
  lemma {:induction false} DroppedIsGone(j: Json, paths: set<Path>, p: Path)
    requires p in paths && p != []
    ensures Find(DropAll(j, paths), p) == None
    decreases |p|
  {
    if j.Obj? && p[0] in j.fields && |p| > 1 {
      assert p[1..] in Tails(paths, p[0]);
      if j.fields[p[0]].Obj? {
        DroppedIsGone(j.fields[p[0]], Tails(paths, p[0]), p[1..]);
      }
    } else {
      assert |p| == 1 ==> p == [p[0]];
    }
  }

  // ----- whole traces -----

  datatype TraceEvent = TraceEvent(eventType: string, raw: Json)

  datatype CheckConfig = CheckConfig(ignoreEventTypes: set<string>, dropFields: seq<Path>)

  /** The canonical form of a trace: ignored types gone, every payload without the dropped fields. */
  ghost function Canonical(events: seq<TraceEvent>, config: CheckConfig): seq<Json> {
    if events == [] then []
    else
      var rest := Canonical(events[..|events| - 1], config);
      var e := events[|events| - 1];
      if e.eventType in config.ignoreEventTypes then rest
      else rest + [DropAll(e.raw, Members(config.dropFields))]
  }

  method NormaliseEvent(event: TraceEvent, config: CheckConfig) returns (payload: Option<Json>)
    ensures payload == if event.eventType in config.ignoreEventTypes then None
                       else Some(DropAll(event.raw, Members(config.dropFields)))
  {
    if event.eventType in config.ignoreEventTypes {
      return None;
    }
    var json := event.raw;
    var i := 0;
    while i < |config.dropFields|
      invariant 0 <= i <= |config.dropFields|
      invariant json == DropEach(event.raw, config.dropFields[..i])
    {
      json := DropPath(json, config.dropFields[i]);
      assert config.dropFields[..i + 1][..i] == config.dropFields[..i];
      i := i + 1;
    }
    assert config.dropFields[..i] == config.dropFields;
    DropEachIsDropAll(event.raw, config.dropFields);
    return Some(json);
  }

  method NormaliseTrace(events: seq<TraceEvent>, config: CheckConfig) returns (normalised: seq<Json>)
    ensures normalised == Canonical(events, config)
  {
    normalised := [];
    var i := 0;
    while i < |events|
      invariant 0 <= i <= |events|
      invariant normalised == Canonical(events[..i], config)
    {
      var payload := NormaliseEvent(events[i], config);
      if payload.Some? {
        normalised := normalised + [payload.value];
      }
      assert events[..i + 1][..i] == events[..i];
      i := i + 1;
    }
    assert events[..i] == events;
  }

  datatype Comparison = Matched | EventMismatch(index: nat) | LengthMismatch(index: nat)

  /** `compare_traces`: a match exactly when the canonical forms are equal, else the first place they differ. */
  method CompareTraces(a: seq<TraceEvent>, b: seq<TraceEvent>, config: CheckConfig) returns (r: Comparison)
    ensures r.Matched? <==> Canonical(a, config) == Canonical(b, config)
    ensures r.EventMismatch? ==>
      var x, y := Canonical(a, config), Canonical(b, config);
      r.index < |x| && r.index < |y| && x[r.index] != y[r.index] && x[..r.index] == y[..r.index]
    ensures r.LengthMismatch? ==>
      var x, y := Canonical(a, config), Canonical(b, config);
      && |x| != |y| && (r.index == |x| || r.index == |y|) && r.index <= |x| && r.index <= |y|
      && x[..r.index] == y[..r.index]
  {
    var x := NormaliseTrace(a, config);
    var y := NormaliseTrace(b, config);
    var common := if |x| <= |y| then |x| else |y|;
    var i := 0;
    while i < common
      invariant 0 <= i <= common
      invariant x[..i] == y[..i]
    {
      if x[i] != y[i] {
        return EventMismatch(i);
      }
      assert x[..i + 1] == x[..i] + [x[i]] && y[..i + 1] == y[..i] + [y[i]];
      i := i + 1;
    }
    if |x| != |y| {
      return LengthMismatch(common);
    }
    assert x[..i] == x && y[..i] == y;
    return Matched;
  }
}
