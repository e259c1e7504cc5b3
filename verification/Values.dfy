/** Lisp values and the list conversions of src/value.cpp. */
module Values {

  datatype Option<+T> = None | Some(value: T)

  /** The runtime's mutable or foreign objects: only their identity matters here. */
  datatype HandleKind = Vec | Map | Pq | Rng | BtDef | BtInstance | Image | Blob

  /** Conses are never updated after `make_cons`, so a value is a finite tree. */
  datatype Value =
    | Nil
    | Bool(b: bool)
    | Int(i: int)
    | Float(bits: nat)
    | Str(text: string)
    | Sym(name: string)
    | Cons(car: Value, cdr: Value)
    | Prim(id: nat)
    | Closure(params: seq<string>, body: seq<Value>, env: nat)
    | Handle(kind: HandleKind, handle: nat)

  predicate Truthy(v: Value) {
    v != Nil && v != Bool(false)
  }

  predicate IsProperList(v: Value) {
    match v
    case Nil => true
    case Cons(_, d) => IsProperList(d)
    case _ => false
  }

  function Items(v: Value): (r: seq<Value>)
    requires IsProperList(v)
    ensures SeqSize(r) < Size(v)
  {
    if v.Nil? then [] else [v.car] + Items(v.cdr)
  }

  function ListOf(items: seq<Value>): (v: Value)
    ensures IsProperList(v) && Items(v) == items
  {
    if items == [] then Nil else Cons(items[0], ListOf(items[1..]))
  }

  /** Size measures: every item of a list is smaller than the list. */
  function Size(v: Value): nat {
    if v.Cons? then 1 + Size(v.car) + Size(v.cdr) else 1
  }

  function SeqSize(s: seq<Value>): (n: nat) {
    if s == [] then 0 else 1 + Size(s[0]) + SeqSize(s[1..])
  }

  lemma {:induction false} SeqSizeSplit(s: seq<Value>, t: seq<Value>)
    ensures SeqSize(s + t) == SeqSize(s) + SeqSize(t)
  {
    if s == [] {
      assert s + t == t;
    } else {
      SeqSizeSplit(s[1..], t);
      assert (s + t)[1..] == s[1..] + t;
    }
  }

  lemma ItemSmaller(s: seq<Value>, i: nat)
    requires i < |s|
    ensures Size(s[i]) < SeqSize(s)
  {
    if i > 0 {
      ItemSmaller(s[1..], i - 1);
    }
  }

  lemma SuffixSmaller(s: seq<Value>, i: nat)
    requires i <= |s|
    ensures SeqSize(s[i..]) + i <= SeqSize(s)
  {
    if i > 0 {
      SuffixSmaller(s[1..], i - 1);
      assert s[1..][i - 1..] == s[i..];
    }
  }

  /** `is_proper_list`: the cursor loop decides the recursive definition. */
  method CheckProperList(list: Value) returns (proper: bool)
    ensures proper == IsProperList(list)
  {
    var cursor := list;
    while !cursor.Nil?
      invariant IsProperList(list) == IsProperList(cursor)
      decreases cursor
    {
      if !cursor.Cons? {
        return false;
      }
      cursor := cursor.cdr;
    }
    return true;
  }

  /** `vector_from_list`: None stands for the "expected proper list" error. */
  method VectorFromList(list: Value) returns (items: Option<seq<Value>>)
    ensures items == if IsProperList(list) then Some(Items(list)) else None
  {
    var out: seq<Value> := [];
    var cursor := list;
    while !cursor.Nil?
      invariant IsProperList(list) == IsProperList(cursor)
      invariant IsProperList(list) ==> Items(list) == out + Items(cursor)
      decreases cursor
    {
      if !cursor.Cons? {
        return None;
      }
      out := out + [cursor.car];
      cursor := cursor.cdr;
    }
    assert out + Items(cursor) == out;
    return Some(out);
  }

  /** `list_from_vector`: consing the items from the back. */
  method ListFromVector(items: seq<Value>) returns (list: Value)
    ensures IsProperList(list) && Items(list) == items
  {
    list := Nil;
    var i := |items|;
    while i > 0
      invariant 0 <= i <= |items|
      invariant IsProperList(list) && Items(list) == items[i..]
    {
      i := i - 1;
      list := Cons(items[i], list);
      assert items[i..] == [items[i]] + items[i + 1..];
    }
  }
}
