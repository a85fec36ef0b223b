/** The part of JavaScript's value and object semantics that the presets rely on:
    string, number and plain-object values, property lookup, the assignment
    `o[k] = v`, `Object.entries`, object spread and object literals.

    An object is represented by its own enumerable string-keyed properties in
    enumeration order.  ECMAScript orders the keys of an ordinary object with every
    array index first, in ascending numeric order, and every other key after them,
    in the order the properties were created (OrdinaryOwnPropertyKeys, section
    10.1.11.1 of ECMA-262). */
module JsObject {

  datatype Option<T> = None | Some(value: T) {
    function GetOr(default: T): T {
      match this
      case Some(v) => v
      case None => default
    }
  }

  /** How evaluating a piece of JavaScript ends: with a value or with a thrown error. */
  datatype Completion<T> = Normal(value: T) | Throw(error: string)

  /** A JavaScript value as it occurs in the configuration. */
  datatype Value = Str(s: string) | Num(n: int) | Obj(props: seq<(string, Value)>)

  type Props = seq<(string, Value)>

  // ---------------------------------------------------------------------------
  // Keys

  predicate IsDigit(c: char) { '0' <= c <= '9' }

  predicate IsNumeral(s: string) {
    forall i :: 0 <= i < |s| ==> IsDigit(s[i])
  }

  function NumeralValue(s: string): nat
    requires IsNumeral(s)
  {
    if s == [] then 0
    else NumeralValue(s[..|s| - 1]) * 10 + (s[|s| - 1] as int - '0' as int)
  }

  /** The largest array index, 2^32 - 2. */
  const MaxArrayIndex: nat := 0xFFFF_FFFE

  /** A key that is the canonical decimal form of an array index. */
  predicate IsArrayIndex(k: string) {
    && |k| > 0
    && IsNumeral(k)
    && (k[0] == '0' ==> |k| == 1)
    && NumeralValue(k) <= MaxArrayIndex
  }

  /** A key with a character other than a digit is not an array index. */
  lemma NonDigitIsNotIndex(k: string, i: nat)
    requires i < |k| && !IsDigit(k[i])
    ensures !IsArrayIndex(k)
  {
  }

  function DigitChar(d: nat): char
    requires d < 10
  {
    ('0' as int + d) as char
  }

  /** `String(n)` for a non-negative integer. */
  function NatToString(n: nat): (s: string)
    ensures |s| > 0 && IsNumeral(s)
    ensures NumeralValue(s) == n
    ensures s[0] == '0' ==> |s| == 1
  {
    if n < 10 then [DigitChar(n)]
    else
      var s := NatToString(n / 10) + [DigitChar(n % 10)];
      assert s[..|s| - 1] == NatToString(n / 10);
      s
  }

  lemma NatToStringInjective(m: nat, n: nat)
    requires NatToString(m) == NatToString(n)
    ensures m == n
  {
    assert NumeralValue(NatToString(m)) == NumeralValue(NatToString(n));
  }

  // ---------------------------------------------------------------------------
  // Property lists

  predicate DistinctKeys(p: Props) {
    forall i, j :: 0 <= i < j < |p| ==> p[i].0 != p[j].0
  }

  /** The place of a key in the enumeration order: an array index by its value,
      every other key after all of them. */
  function Rank(k: string): nat {
    if IsArrayIndex(k) then NumeralValue(k) else MaxArrayIndex + 1
  }

  /** Array-index keys come first, in ascending numeric order. */
  predicate InEnumerationOrder(p: Props) {
    forall i, j :: 0 <= i < j < |p| ==> Rank(p[i].0) <= Rank(p[j].0)
  }

  /** The property lists that an ordinary object can have. */
  predicate IsObject(p: Props) {
    DistinctKeys(p) && InEnumerationOrder(p)
  }

  /** `o[k]`: the value of property `k`, or `None` for `undefined`. */
  function Get(p: Props, k: string): (r: Option<Value>)
    ensures r.None? <==> forall i :: 0 <= i < |p| ==> p[i].0 != k
  {
    if p == [] then None
    else if p[0].0 == k then Some(p[0].1)
    else Get(p[1..], k)
  }

  /** Position of the first property named `k`. */
  function KeyIndex(p: Props, k: string): (i: nat)
    requires Get(p, k).Some?
    ensures i < |p| && p[i].0 == k && Get(p, k) == Some(p[i].1)
    ensures forall j :: 0 <= j < i ==> p[j].0 != k
  {
    if p[0].0 == k then 0 else 1 + KeyIndex(p[1..], k)
  }

  lemma {:induction false} GetAppend(a: Props, b: Props, k: string)
    ensures Get(a + b, k) == if Get(a, k).Some? then Get(a, k) else Get(b, k)
  {
    if a != [] {
      assert (a + b)[0] == a[0];
      assert (a + b)[1..] == a[1..] + b;
      GetAppend(a[1..], b, k);
    } else {
      assert a + b == b;
    }
  }

  lemma GetDistinctAt(p: Props, i: nat)
    requires DistinctKeys(p) && i < |p|
    ensures Get(p, p[i].0) == Some(p[i].1)
  {
    assert p == p[..i] + p[i..];
    GetAppend(p[..i], p[i..], p[i].0);
  }

  lemma ConsDistinct(x: (string, Value), q: Props)
    requires DistinctKeys(q) && Get(q, x.0).None?
    ensures DistinctKeys([x] + q)
  {
    var r := [x] + q;
    forall i, j | 0 <= i < j < |r| ensures r[i].0 != r[j].0 {
      assert r[j] == q[j - 1];
      if i > 0 { assert r[i] == q[i - 1]; }
    }
  }

  /** `o[k] = v` on an ordinary object: an existing property keeps its place and
      takes the new value; a new array-index key is created before the first key
      that ranks above it, any other new key at the end. */
  function Put(p: Props, k: string, v: Value): (r: Props)
    ensures Get(r, k) == Some(v)
    ensures forall j :: j != k ==> Get(r, j) == Get(p, j)
    ensures |r| == if Get(p, k).Some? then |p| else |p| + 1
    decreases |p|
  {
    if p == [] then [(k, v)]
    else if p[0].0 == k then [(k, v)] + p[1..]
    else if Get(p, k).None? && IsArrayIndex(k) && Rank(k) < Rank(p[0].0) then [(k, v)] + p
    else [p[0]] + Put(p[1..], k, v)
  }

  /** A new key that does not rank below the first property is created after it. */
  lemma PutPastHead(x: (string, Value), q: Props, k: string, v: Value)
    requires x.0 != k && Get(q, k).None? && Rank(x.0) <= Rank(k)
    ensures Put([x] + q, k, v) == [x] + Put(q, k, v)
  {
    assert ([x] + q)[0] == x && ([x] + q)[1..] == q;
  }

  /** A new array-index key that ranks below the first property is created before it. */
  lemma PutBeforeHead(x: (string, Value), q: Props, k: string, v: Value)
    requires x.0 != k && Get(q, k).None? && IsArrayIndex(k) && Rank(k) < Rank(x.0)
    ensures Put([x] + q, k, v) == [(k, v), x] + q
  {
    assert ([x] + q)[0] == x && ([x] + q)[1..] == q;
  }

  /** Every property after an assignment was there before or is the one assigned. */
  lemma {:induction false} PutElements(p: Props, k: string, v: Value)
    ensures forall i :: 0 <= i < |Put(p, k, v)| ==> Put(p, k, v)[i] in p || Put(p, k, v)[i] == (k, v)
    decreases |p|
  {
    if p != [] && p[0].0 != k && !(Get(p, k).None? && IsArrayIndex(k) && Rank(k) < Rank(p[0].0)) {
      PutElements(p[1..], k, v);
      var r, q := Put(p, k, v), Put(p[1..], k, v);
      forall i | 0 <= i < |r| ensures r[i] in p || r[i] == (k, v) {
        if i > 0 {
          assert r[i] == q[i - 1];
          if q[i - 1] != (k, v) {
            var j :| 0 <= j < |p[1..]| && p[1..][j] == q[i - 1];
            assert p[j + 1] == r[i];
          }
        }
      }
    }
  }

  /** Assigning a new key that is not an array index appends the property. */
  lemma {:induction false} PutAppends(p: Props, k: string, v: Value)
    requires Get(p, k).None? && !IsArrayIndex(k)
    ensures Put(p, k, v) == p + [(k, v)]
    decreases |p|
  {
    if p != [] {
      PutAppends(p[1..], k, v);
      assert Put(p, k, v) == [p[0]] + Put(p[1..], k, v);
      assert p == [p[0]] + p[1..];
      assert [p[0]] + (p[1..] + [(k, v)]) == ([p[0]] + p[1..]) + [(k, v)];
    }
  }

  lemma {:induction false} PutKeepsDistinctKeys(p: Props, k: string, v: Value)
    requires DistinctKeys(p)
    ensures DistinctKeys(Put(p, k, v))
    decreases |p|
  {
    if p == [] {
    } else if p[0].0 == k {
      ConsDistinct((k, v), p[1..]);
    } else if Get(p, k).None? && IsArrayIndex(k) && Rank(k) < Rank(p[0].0) {
      ConsDistinct((k, v), p);
    } else {
      assert DistinctKeys(p[1..]);
      assert Get(p[1..], p[0].0).None?;
      PutKeepsDistinctKeys(p[1..], k, v);
      ConsDistinct(p[0], Put(p[1..], k, v));
    }
  }

  /** In the last case of `Put` the head stays in front of everything after it. */
  lemma HeadRanksFirst(p: Props, k: string, v: Value)
    requires InEnumerationOrder(p) && p != [] && p[0].0 != k
    requires !(Get(p, k).None? && IsArrayIndex(k) && Rank(k) < Rank(p[0].0))
    ensures forall j :: 0 <= j < |Put(p[1..], k, v)| ==> Rank(p[0].0) <= Rank(Put(p[1..], k, v)[j].0)
  {
    var tail := p[1..];
    var q := Put(tail, k, v);
    PutElements(tail, k, v);
    assert Rank(p[0].0) <= Rank(k) by {
      if Get(p, k).Some? {
        var i := KeyIndex(p, k);
        assert i > 0;
      }
    }
    forall j | 0 <= j < |q| ensures Rank(p[0].0) <= Rank(q[j].0) {
      if q[j] != (k, v) {
        var i :| 0 <= i < |tail| && tail[i] == q[j];
        assert tail[i] == p[i + 1];
      }
    }
  }

  lemma ConsOrdered(x: (string, Value), q: Props)
    requires InEnumerationOrder(q)
    requires forall j :: 0 <= j < |q| ==> Rank(x.0) <= Rank(q[j].0)
    ensures InEnumerationOrder([x] + q)
  {
    var r := [x] + q;
    forall i, j | 0 <= i < j < |r| ensures Rank(r[i].0) <= Rank(r[j].0) {
      assert r[j] == q[j - 1];
      if i > 0 { assert r[i] == q[i - 1]; }
    }
  }

  lemma {:induction false} PutKeepsEnumerationOrder(p: Props, k: string, v: Value)
    requires InEnumerationOrder(p)
    ensures InEnumerationOrder(Put(p, k, v))
    decreases |p|
  {
    if p == [] {
    } else if p[0].0 == k {
      assert forall i :: 0 < i < |p| ==> Put(p, k, v)[i] == p[i];
    } else if Get(p, k).None? && IsArrayIndex(k) && Rank(k) < Rank(p[0].0) {
      ConsOrdered((k, v), p);
    } else {
      assert InEnumerationOrder(p[1..]);
      PutKeepsEnumerationOrder(p[1..], k, v);
      HeadRanksFirst(p, k, v);
      ConsOrdered(p[0], Put(p[1..], k, v));
    }
  }

  /** Assigning an existing key changes no key and no position. */
  lemma {:induction false} PutKeepsKeys(p: Props, k: string, v: Value)
    requires Get(p, k).Some?
    ensures forall i :: 0 <= i < |p| ==> Put(p, k, v)[i].0 == p[i].0
    decreases |p|
  {
    if p[0].0 != k {
      PutKeepsKeys(p[1..], k, v);
      var r := Put(p, k, v);
      forall i | 0 < i < |p| ensures r[i].0 == p[i].0 {
        assert r[i] == Put(p[1..], k, v)[i - 1] && p[i] == p[1..][i - 1];
      }
    }
  }

  /** Repeated assignment: `for (const [k, v] of ws) o[k] = v`. */
  function PutAll(p: Props, ws: Props): Props
    decreases |ws|
  {
    if ws == [] then p
    else Put(PutAll(p, ws[..|ws| - 1]), ws[|ws| - 1].0, ws[|ws| - 1].1)
  }

  lemma PutAllSnoc(p: Props, ws: Props, w: (string, Value))
    ensures PutAll(p, ws + [w]) == Put(PutAll(p, ws), w.0, w.1)
  {
    assert (ws + [w])[..|ws|] == ws;
  }

  /** Two series of assignments in a row are one series. */
  lemma {:induction false} PutAllAppend(p: Props, a: Props, b: Props)
    ensures PutAll(p, a + b) == PutAll(PutAll(p, a), b)
    decreases |b|
  {
    if b == [] {
      assert a + b == a;
    } else {
      var init, last := b[..|b| - 1], b[|b| - 1];
      assert a + b == (a + init) + [last];
      PutAllAppend(p, a, init);
      PutAllSnoc(p, a + init, last);
      PutAllSnoc(PutAll(p, a), init, last);
      assert init + [last] == b;
    }
  }

  /** The value of the last assignment to `k` in `ws`, if any. */
  function LastWrite(ws: Props, k: string): Option<Value>
    decreases |ws|
  {
    if ws == [] then None
    else if ws[|ws| - 1].0 == k then Some(ws[|ws| - 1].1)
    else LastWrite(ws[..|ws| - 1], k)
  }

  lemma {:induction false} LastWriteAppend(a: Props, b: Props, k: string)
    ensures LastWrite(a + b, k) == if LastWrite(b, k).Some? then LastWrite(b, k) else LastWrite(a, k)
    decreases |b|
  {
    if b == [] {
      assert a + b == a;
    } else {
      assert (a + b)[..|a + b| - 1] == a + b[..|b| - 1];
      LastWriteAppend(a, b[..|b| - 1], k);
    }
  }

  /** After a series of assignments each property holds the last value assigned to
      it, and every other property keeps its value. */
  lemma {:induction false} GetPutAll(p: Props, ws: Props, k: string)
    ensures Get(PutAll(p, ws), k) == if LastWrite(ws, k).Some? then LastWrite(ws, k) else Get(p, k)
    decreases |ws|
  {
    if ws != [] {
      GetPutAll(p, ws[..|ws| - 1], k);
    }
  }

  lemma FreshKeyOfPrefix(p: Props, ws: Props)
    requires ws != [] && DistinctKeys(ws)
    requires Get(p, ws[|ws| - 1].0).None?
    ensures Get(p + ws[..|ws| - 1], ws[|ws| - 1].0).None?
  {
    var w, last := ws[..|ws| - 1], ws[|ws| - 1];
    GetAppend(p, w, last.0);
    assert forall i :: 0 <= i < |w| ==> w[i].0 != last.0 by {
      forall i | 0 <= i < |w| ensures w[i].0 != last.0 {
        assert w[i] == ws[i];
      }
    }
  }

  /** Dropping the last entry keeps the keys distinct and frees the last key. */
  lemma DistinctPrefix(ws: Props)
    requires ws != [] && DistinctKeys(ws)
    ensures DistinctKeys(ws[..|ws| - 1])
    ensures Get(ws[..|ws| - 1], ws[|ws| - 1].0).None?
  {
    var w := ws[..|ws| - 1];
    assert forall i :: 0 <= i < |w| ==> w[i] == ws[i];
    FreshKeyOfPrefix([], ws);
    assert [] + w == w;
  }

  /** `k` is not a property of `p` and an assignment to it appends. */
  predicate AppendsTo(p: Props, k: string) {
    Get(p, k).None? && !IsArrayIndex(k)
  }

  lemma FreshPrefix(p: Props, ws: Props)
    requires ws != [] && DistinctKeys(ws)
    requires forall i :: 0 <= i < |ws| ==> AppendsTo(p, ws[i].0)
    ensures DistinctKeys(ws[..|ws| - 1])
    ensures forall i :: 0 <= i < |ws| - 1 ==> AppendsTo(p, ws[i].0)
    ensures AppendsTo(p + ws[..|ws| - 1], ws[|ws| - 1].0)
    ensures ws[..|ws| - 1] + [ws[|ws| - 1]] == ws
  {
    FreshKeyOfPrefix(p, ws);
  }

  /** One more assignment of a new key that is not an array index appends it. */
  lemma PutAllSnocFresh(p: Props, w: Props, last: (string, Value))
    requires PutAll(p, w) == p + w
    requires AppendsTo(p + w, last.0)
    ensures PutAll(p, w + [last]) == p + (w + [last])
  {
    var ws := w + [last];
    assert ws[..|ws| - 1] == w;
    PutAppends(p + w, last.0, last.1);
    assert p + w + [last] == p + ws;
  }

  /** Assignments to distinct new keys that are not array indices append, in order. */
  lemma {:induction false} PutAllFresh(p: Props, ws: Props)
    requires DistinctKeys(ws)
    requires forall i :: 0 <= i < |ws| ==> AppendsTo(p, ws[i].0)
    ensures PutAll(p, ws) == p + ws
    decreases |ws|
  {
    if ws != [] {
      var w, last := ws[..|ws| - 1], ws[|ws| - 1];
      FreshPrefix(p, ws);
      PutAllFresh(p, w);
      PutAllSnocFresh(p, w, last);
    }
  }

  // ---------------------------------------------------------------------------
  // Values

  /** The values whose every object, at every depth, is an ordinary object's property list. */
  predicate WellFormed(v: Value) {
    match v
    case Obj(props) => IsObject(props) && forall i :: 0 <= i < |props| ==> WellFormed(props[i].1)
    case _ => true
  }

  lemma MemberWellFormed(v: Value, k: string)
    requires WellFormed(v) && Member(v, k).Some?
    ensures WellFormed(Member(v, k).value)
  {
    var i := KeyIndex(Entries(v), k);
    assert Member(v, k).value == Entries(v)[i].1;
  }

  /** `Object.entries(v)`: an object's properties; for a string, one property per
      character, keyed by its position; a number has none. */
  function Entries(v: Value): Props {
    match v
    case Obj(props) => props
    case Str(s) => seq(|s|, i requires 0 <= i < |s| => (NatToString(i), Str([s[i]])))
    case Num(_) => []
  }

  lemma EntriesDistinct(v: Value)
    requires WellFormed(v)
    ensures DistinctKeys(Entries(v))
  {
    if v.Str? {
      var e := Entries(v);
      forall i, j | 0 <= i < j < |e| ensures e[i].0 != e[j].0 {
        if e[i].0 == e[j].0 { NatToStringInjective(i, j); }
      }
    }
  }

  /** `v[k]` */
  function Member(v: Value, k: string): Option<Value> {
    Get(Entries(v), k)
  }

  /** `v[k0][k1]...`, `undefined` as soon as one step finds nothing. */
  function Path(v: Value, path: seq<string>): Option<Value>
    decreases |path|
  {
    if path == [] then Some(v)
    else match Member(v, path[0])
      case None => None
      case Some(w) => Path(w, path[1..])
  }

  lemma PathOne(v: Value, a: string)
    ensures Path(v, [a]) == Member(v, a)
  {
    assert [a][1..] == [];
    match Member(v, a)
    case None =>
    case Some(w) => assert Path(v, [a]) == Path(w, []);
  }

  lemma {:induction false} PathWellFormed(v: Value, path: seq<string>)
    requires WellFormed(v) && Path(v, path).Some?
    ensures WellFormed(Path(v, path).value)
    decreases |path|
  {
    if path != [] {
      MemberWellFormed(v, path[0]);
      PathWellFormed(Member(v, path[0]).value, path[1..]);
    }
  }

  lemma PathPair(v: Value, a: string, b: string)
    ensures Path(v, [a, b]) == match Member(v, a) case None => None case Some(w) => Member(w, b)
  {
    assert [a, b][1..] == [b];
    assert [b][1..] == [];
    match Member(v, a)
    case None =>
    case Some(w) =>
      assert Path(v, [a, b]) == Path(w, [b]);
      match Member(w, b)
      case None =>
      case Some(x) => assert Path(w, [b]) == Path(x, []);
  }

  /** `{...o, [k]: v}` where `o` may be `undefined`, which spreads nothing. */
  function SpreadWith(o: Option<Value>, k: string, v: Value): (r: Value)
    ensures r.Obj?
    ensures Member(r, k) == Some(v)
    ensures forall j :: j != k ==> Member(r, j) == (if o.Some? then Member(o.value, j) else None)
  {
    Obj(Put(if o.Some? then Entries(o.value) else [], k, v))
  }

  /** An object literal `{k0: v0, k1: v1, ...}`. */
  function Literal(pairs: Props): Value {
    Obj(PutAll([], pairs))
  }

  /** Spreading an object and adding a key it lacks that is not an array index
      copies its properties in order and puts the new one last. */
  lemma SpreadAppends(o: Value, k: string, v: Value)
    requires Member(o, k).None? && !IsArrayIndex(k)
    ensures Entries(SpreadWith(Some(o), k, v)) == Entries(o) + [(k, v)]
  {
    PutAppends(Entries(o), k, v);
  }

  /** Spreading an object and overriding a key it has keeps every key in its place. */
  lemma SpreadOverrides(o: Value, k: string, v: Value)
    requires Member(o, k).Some?
    ensures |Entries(SpreadWith(Some(o), k, v))| == |Entries(o)|
    ensures forall i :: 0 <= i < |Entries(o)| ==> Entries(SpreadWith(Some(o), k, v))[i].0 == Entries(o)[i].0
  {
    PutKeepsKeys(Entries(o), k, v);
  }

  lemma SpreadDistinct(o: Option<Value>, k: string, v: Value)
    requires o.Some? ==> DistinctKeys(Entries(o.value))
    ensures DistinctKeys(Entries(SpreadWith(o, k, v)))
  {
    PutKeepsDistinctKeys(if o.Some? then Entries(o.value) else [], k, v);
  }

  /** An object literal with distinct keys, none an array index, keeps the order it is written in. */
  lemma LiteralEntries(pairs: Props)
    requires DistinctKeys(pairs)
    requires forall i :: 0 <= i < |pairs| ==> !IsArrayIndex(pairs[i].0)
    ensures Entries(Literal(pairs)) == pairs
  {
    PutAllFresh([], pairs);
    assert [] + pairs == pairs;
  }

  /** The keys of a property list, in order. */
  function Keys(p: Props): seq<string> {
    seq(|p|, i requires 0 <= i < |p| => p[i].0)
  }
}
