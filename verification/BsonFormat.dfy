/** The BSON document format, and what parsing a list of elements finds in it. */
module BsonFormat {
  import opened Options
  import opened Bytes

  const TYPE_DOUBLE: Byte := 0x01
  const TYPE_STRING: Byte := 0x02
  const TYPE_DOCUMENT: Byte := 0x03
  const TYPE_ARRAY: Byte := 0x04
  const TYPE_BINARY: Byte := 0x05
  const TYPE_BOOLEAN: Byte := 0x08
  const TYPE_DATETIME: Byte := 0x09
  const TYPE_INT32: Byte := 0x10
  const TYPE_INT64: Byte := 0x12
  const SUBTYPE_DEFAULT_BINARY: Byte := 0x00

  const NULL_TERM_SIZE := 1
  const SIZE_BYTES := 4
  const EMPTY_DOCUMENT := SIZE_BYTES + NULL_TERM_SIZE
  const UINT32_MAX := 0xFFFF_FFFF
  const INT32_MAX := 0x7FFF_FFFF

  datatype Status = Ok | NotFound | InternalError | SerializerError | InvalidParam | TypesError | OutOfMemory

  predicate IsKind(kind: Byte) {
    kind == TYPE_DOUBLE || kind == TYPE_STRING || kind == TYPE_DOCUMENT || kind == TYPE_ARRAY || kind == TYPE_BINARY
    || kind == TYPE_BOOLEAN || kind == TYPE_DATETIME || kind == TYPE_INT32 || kind == TYPE_INT64
  }

  // ---- writing

  /** An element as it is written: type, name, and the bytes of its value. */
  datatype Raw = Raw(kind: Byte, name: Text, payload: Bytes)

  function ElementBytes(e: Raw): (b: Bytes)
    ensures |b| == 2 + |e.name| + |e.payload|
  {
    [e.kind] + e.name + [0] + e.payload
  }

  /** The list of elements of a document. */
  function Body(es: seq<Raw>): Bytes {
    if es == [] then [] else ElementBytes(es[0]) + Body(es[1..])
  }

  /** A document: its own size, the list, and a NUL. */
  function DocumentBytes(list: Bytes): (b: Bytes)
    requires |list| + EMPTY_DOCUMENT <= UINT32_MAX
    ensures |b| == |list| + EMPTY_DOCUMENT
  {
    Le32(|list| + EMPTY_DOCUMENT) + list + [0]
  }

  // ---- reading

  /** A document while it is read: the size it declares, and its list. */
  datatype Document = Document(size: U32, list: Bytes)

  /** An element found in a list: its value starts at an offset of the list. */
  datatype Element = Element(kind: Byte, name: Bytes, value: nat)

  /** Index of the first NUL at or after `at`, or the length of the list. */
  function NulFrom(list: Bytes, at: nat): (i: nat)
    requires at <= |list|
    ensures at <= i <= |list| && (i < |list| ==> list[i] == 0) && 0 !in list[at..i]
    decreases |list| - at
  {
    if at == |list| || list[at] == 0 then at else NulFrom(list, at + 1)
  }

  /** The number of bytes that a value of this type takes, as its leading bytes declare it. */
  function ValueSize(list: Bytes, kind: Byte, value: nat): Option<nat>
    requires value <= |list|
  {
    if kind == TYPE_DOUBLE || kind == TYPE_DATETIME || kind == TYPE_INT64 then Some(8)
    else if kind == TYPE_INT32 then Some(4)
    else if kind == TYPE_BOOLEAN then Some(1)
    else if !IsKind(kind) || value + 4 > |list| then None
    else
      var declared := Get32(list, value);
      if kind == TYPE_STRING then (if declared > UINT32_MAX - 4 then None else Some(4 + declared))
      else if kind == TYPE_BINARY then (if declared > UINT32_MAX - 5 then None else Some(5 + declared))
      else Some(declared)
  }

  /** The element that starts at an offset, if all of it lies inside the list. */
  function ParseAt(list: Bytes, start: nat): (r: Option<Element>)
    requires start < |list|
    ensures r.Some? ==>
      start + 2 <= r.value.value <= |list| && ValueSize(list, r.value.kind, r.value.value).Some?
      && EndOf(list, r.value) <= |list|
  {
    var nul := NulFrom(list, start + 1);
    if nul == |list| then None
    else
      var e := Element(list[start], list[start + 1..nul], nul + 1);
      var size := ValueSize(list, e.kind, e.value);
      if size.None? || e.value + size.value > |list| then None else Some(e)
  }

  /** Where the next element starts. */
  function EndOf(list: Bytes, e: Element): nat
    requires e.value <= |list| && ValueSize(list, e.kind, e.value).Some?
  {
    e.value + ValueSize(list, e.kind, e.value).value
  }

  predicate Inside(list: Bytes, e: Element) {
    2 <= e.value <= |list| && ValueSize(list, e.kind, e.value).Some? && EndOf(list, e) <= |list|
  }

  /** The elements met from an offset on, and why the walk stops. */
  datatype Walk = Walk(elements: seq<Element>, stop: Status)

  function Cons(e: Element, w: Walk): Walk {
    Walk([e] + w.elements, w.stop)
  }

  function WalkFrom(list: Bytes, start: nat): Walk
    decreases |list| - start, 1
  {
    if start >= |list| || list[start] == 0 then Walk([], NotFound) else WalkParsed(list, start)
  }

  function WalkParsed(list: Bytes, start: nat): Walk
    requires start < |list|
    decreases |list| - start, 0
  {
    match ParseAt(list, start)
    case None => Walk([], InternalError)
    case Some(e) => Cons(e, WalkFrom(list, EndOf(list, e)))
  }

  /** The elements of a document. */
  function WalkOf(doc: Document): Walk {
    if doc.size <= EMPTY_DOCUMENT then Walk([], NotFound)
    else if doc.list == [] then Walk([], InternalError)
    else WalkParsed(doc.list, 0)
  }

  // ---- what parsing finds

  /** The elements follow one another: each starts after the end of the one before, and all of it is in the list. */
  ghost predicate Advancing(list: Bytes, es: seq<Element>, start: nat) {
    && (forall k :: 0 <= k < |es| ==> Inside(list, es[k]))
    && (es != [] ==> start + 2 <= es[0].value)
    && (forall k :: 0 < k < |es| ==> EndOf(list, es[k - 1]) + 2 <= es[k].value)
  }

  /** Whatever the bytes are, the walk ends, moves forward with each element, and never leaves the list. */
  lemma {:induction false} WalkAdvances(list: Bytes, start: nat)
    ensures Advancing(list, WalkFrom(list, start).elements, start)
    ensures start < |list| ==> Advancing(list, WalkParsed(list, start).elements, start)
    ensures |WalkFrom(list, start).elements| * 2 <= if start <= |list| then |list| - start else 0
    ensures WalkFrom(list, start).stop == NotFound || WalkFrom(list, start).stop == InternalError
    decreases |list| - start
  {
    if start < |list| {
      hide ValueSize;
      match ParseAt(list, start) {
        case None =>
        case Some(e) =>
          WalkAdvances(list, EndOf(list, e));
      }
    }
  }

  /** The bytes of an element found. */
  function RawOf(list: Bytes, e: Element): Raw
    requires Inside(list, e) && 0 !in e.name
  {
    Raw(e.kind, e.name, list[e.value..EndOf(list, e)])
  }

  /** A value has exactly the size that its leading bytes declare. */
  ghost predicate WellSized(e: Raw) {
    IsKind(e.kind) && ValueSize(e.payload, e.kind, 0) == Some(|e.payload|)
  }

  /** An element is found as it was written. */
  ghost predicate Found(list: Bytes, e: Element, r: Raw) {
    && Inside(list, e)
    && e.kind == r.kind && e.name == r.name && list[e.value..EndOf(list, e)] == r.payload
  }

  lemma ValueSizeWithin(list: Bytes, kind: Byte, value: nat, end: nat)
    requires value <= end <= |list|
    requires ValueSize(list[value..end], kind, 0) == Some(end - value)
    ensures ValueSize(list, kind, value) == Some(end - value)
  {
    if end - value >= 4 {
      Get32Within(list, value, end);
    }
  }

  lemma {:induction false} NulAfter(list: Bytes, at: nat, i: nat)
    requires at <= i < |list| && list[i] == 0 && 0 !in list[at..i]
    ensures NulFrom(list, at) == i
    decreases i - at
  {
    if at < i {
      assert list[at] == list[at..i][0];
      assert forall k :: at + 1 <= k < i ==> list[k] == list[at..i][k - at];
      NulAfter(list, at + 1, i);
    }
  }

  lemma ParseWritten(list: Bytes, start: nat, r: Raw, end: nat)
    requires start < |list| && end <= |list| && WellSized(r)
    requires end == start + |ElementBytes(r)| && list[start..end] == ElementBytes(r)
    ensures ParseAt(list, start).Some? && Found(list, ParseAt(list, start).value, r)
    ensures EndOf(list, ParseAt(list, start).value) == end && list[start] != 0
  {
    hide ValueSize;
    var b := ElementBytes(r);
    assert list[start] == b[0] == r.kind;
    var nul := start + 1 + |r.name|;
    assert list[nul] == b[nul - start] == 0;
    PartOfPart(list, start, end, 1, 1 + |r.name|);
    assert b[1..1 + |r.name|] == r.name;
    NulAfter(list, start + 1, nul);
    PartOfPart(list, start, end, 2 + |r.name|, |b|);
    assert b[2 + |r.name|..] == r.payload;
    ValueSizeWithin(list, r.kind, nul + 1, end);
  }

  /** Walking over a list that was written finds every element of it, in order, and then its end. */
  lemma {:induction false} WalkFindsBody(list: Bytes, start: nat, es: seq<Raw>)
    requires start <= |list| && list[start..] == Body(es) && forall r :: r in es ==> WellSized(r)
    ensures var w := WalkFrom(list, start);
      w.stop == NotFound && |w.elements| == |es| && forall k :: 0 <= k < |es| ==> Found(list, w.elements[k], es[k])
    decreases |es|
  {
    hide ValueSize, WellSized, Found, ParseAt, ElementBytes;
    if es != [] {
      var b := ElementBytes(es[0]);
      var end := start + |b|;
      assert list[start..end] == list[start..][..|b|] == b;
      assert list[end..] == list[start..][|b|..] == Body(es[1..]);
      ParseWritten(list, start, es[0], end);
      WalkFindsBody(list, end, es[1..]);
    } else {
      assert |list[start..]| == 0;
    }
  }

  /** A document or array that declares fewer bytes than its size field has. */
  predicate Undersized(list: Bytes, e: Element)
    requires Inside(list, e)
  {
    (e.kind == TYPE_DOCUMENT || e.kind == TYPE_ARRAY) && EndOf(list, e) < e.value + 4
  }

  /** The list is these elements, and perhaps something after a NUL; and these elements are what the walk finds. */
  ghost predicate Written(list: Bytes, start: nat, es: seq<Raw>, rest: Bytes, found: seq<Element>) {
    && start <= |list| && list[start..] == Body(es) + rest && (rest == [] || rest[0] == 0)
    && (forall r :: r in es ==> WellSized(r))
    && |es| == |found| && forall k :: 0 <= k < |es| ==> Found(list, found[k], es[k])
  }

  /** And the other way round: a walk that reaches the end of a list met nothing but written elements, unless a nested
      document is undersized. */
  lemma WalkedWasWritten(list: Bytes, start: nat)
    requires start <= |list| && WalkFrom(list, start).stop == NotFound
    ensures var found := WalkFrom(list, start).elements;
      && (forall e :: e in found ==> Inside(list, e))
      && ((exists es, rest :: Written(list, start, es, rest, found)) <==> forall e :: e in found ==> !Undersized(list, e))
  {
    hide ValueSize, ParseAt, Inside, WalkFrom;
    var found := WalkFrom(list, start).elements;
    WalkAdvances(list, start);
    assert forall e :: e in found ==> Inside(list, e);
    if exists es, rest :: Written(list, start, es, rest, found) {
      var es, rest :| Written(list, start, es, rest, found);
      forall e | e in found
        ensures !Undersized(list, e)
      {
        var k :| 0 <= k < |found| && found[k] == e;
        assert Found(list, found[k], es[k]);
        SizedIsNotUndersized(list, e, es[k]);
      }
    }
    if forall e :: e in found ==> !Undersized(list, e) {
      var es, rest := WrittenOf(list, start);
    }
  }

  lemma SizedIsNotUndersized(list: Bytes, e: Element, r: Raw)
    requires WellSized(r) && Found(list, e, r)
    ensures !Undersized(list, e)
  {
  }

  lemma {:induction false} WrittenOf(list: Bytes, start: nat) returns (es: seq<Raw>, rest: Bytes)
    requires start <= |list| && WalkFrom(list, start).stop == NotFound
    requires forall e :: e in WalkFrom(list, start).elements && Inside(list, e) ==> !Undersized(list, e)
    ensures Written(list, start, es, rest, WalkFrom(list, start).elements)
    decreases |list| - start
  {
    hide ValueSize, WellSized, Found, Undersized, ElementBytes;
    if start == |list| || list[start] == 0 {
      es, rest := [], list[start..];
    } else {
      var e := ParseAt(list, start).value;
      assert e in WalkFrom(list, start).elements;
      var r := ParsedWasWritten(list, start);
      var end := EndOf(list, e);
      var tail;
      tail, rest := WrittenOf(list, end);
      es := [r] + tail;
      assert list[start..] == list[start..end] + list[end..];
      assert es[1..] == tail && Body(es) == ElementBytes(r) + Body(tail);
      assert list[start..] == Body(es) + rest;
    }
  }

  lemma ParsedWasWritten(list: Bytes, start: nat) returns (r: Raw)
    requires start < |list| && ParseAt(list, start).Some? && !Undersized(list, ParseAt(list, start).value)
    ensures var e := ParseAt(list, start).value;
      WellSized(r) && Found(list, e, r) && list[start..EndOf(list, e)] == ElementBytes(r)
  {
    var e := ParseAt(list, start).value;
    r := RawOf(list, e);
    var end := EndOf(list, e);
    assert list[start..end] == [list[start]] + list[start + 1..e.value - 1] + [list[e.value - 1]] + list[e.value..end];
    if e.value + 4 <= end {
      Get32Within(list, e.value, end);
    }
  }

  // ---- nested documents that are too small

  /** After an undersized element the walk stops, and reports no error: the rest of its size field reads as the end of
      the list. */
  lemma UndersizedEndsWalk(list: Bytes, e: Element)
    requires Inside(list, e) && Undersized(list, e)
    ensures WalkFrom(list, EndOf(list, e)) == Walk([], NotFound)
  {
    var n := Get32(list, e.value);
    assert n < 4 && EndOf(list, e) == e.value + n;
    assert list[e.value] == n && list[e.value + 1] == 0 && list[e.value + 2] == 0 && list[e.value + 3] == 0;
  }

  /** So an undersized element is always the last one found, and the walk that found it succeeds. */
  lemma {:induction false} UndersizedIsLast(list: Bytes, start: nat, k: nat)
    requires start < |list| && k < |WalkParsed(list, start).elements|
    requires var e := WalkParsed(list, start).elements[k]; Inside(list, e) && Undersized(list, e)
    ensures k + 1 == |WalkParsed(list, start).elements| && WalkParsed(list, start).stop == NotFound
    decreases k
  {
    hide ValueSize, ParseAt;
    var e := ParseAt(list, start).value;
    if k == 0 {
      UndersizedEndsWalk(list, e);
    } else {
      UndersizedIsLast(list, EndOf(list, e), k - 1);
    }
  }

  /** A nested document or array written with a size field too small to count even itself. */
  ghost predicate Short(r: Raw) {
    (r.kind == TYPE_DOCUMENT || r.kind == TYPE_ARRAY) && exists n: U32 :: n < 4 && r.payload == Le32(n)
  }

  /** Position of the first such element, or the number of elements. */
  ghost function FirstShort(es: seq<Raw>): (k: nat)
    ensures k <= |es| && (k < |es| ==> Short(es[k])) && forall j :: 0 <= j < k ==> !Short(es[j])
  {
    if es == [] || Short(es[0]) then 0 else 1 + FirstShort(es[1..])
  }

  lemma ParseShort(list: Bytes, start: nat, r: Raw, end: nat)
    requires start < |list| && end <= |list| && Short(r)
    requires end == start + |ElementBytes(r)| && list[start..end] == ElementBytes(r)
    ensures ParseAt(list, start).Some? && list[start] != 0
    ensures var e := ParseAt(list, start).value;
      e.kind == r.kind && e.name == r.name && Inside(list, e) && Undersized(list, e)
  {
    hide Le32, Get32, ValueSize;
    var n: U32 :| n < 4 && r.payload == Le32(n);
    var b := ElementBytes(r);
    assert list[start] == b[0] == r.kind;
    var nul := start + 1 + |r.name|;
    assert list[nul] == b[nul - start] == 0;
    PartOfPart(list, start, end, 1, 1 + |r.name|);
    assert b[1..1 + |r.name|] == r.name;
    NulAfter(list, start + 1, nul);
    PartOfPart(list, start, end, 2 + |r.name|, |b|);
    assert b[2 + |r.name|..] == r.payload;
    assert list[nul + 1..nul + 5] == Le32(n);
    Read32(list, nul + 1, n);
    SmallSize(list, r.kind, nul + 1);
  }

  lemma SmallSize(list: Bytes, kind: Byte, value: nat)
    requires (kind == TYPE_DOCUMENT || kind == TYPE_ARRAY) && value + 4 <= |list|
    ensures ValueSize(list, kind, value) == Some(Get32(list, value))
  {
  }

  /** Of written elements the walk finds those up to and including the first short one, and succeeds. Elements are
      dropped exactly when a short one is not the last. */
  lemma {:induction false} ShortDropsRest(list: Bytes, start: nat, es: seq<Raw>)
    requires start <= |list| && list[start..] == Body(es) && forall r :: r in es ==> WellSized(r) || Short(r)
    ensures var w, k := WalkFrom(list, start), FirstShort(es);
      w.stop == NotFound && |w.elements| == if k < |es| then k + 1 else |es|
    decreases |es|
  {
    hide ValueSize, WellSized, Found, ParseAt, ElementBytes, Short, Undersized;
    if es != [] {
      var b := ElementBytes(es[0]);
      var end := start + |b|;
      assert list[start..end] == list[start..][..|b|] == b;
      assert list[end..] == list[start..][|b|..] == Body(es[1..]);
      if Short(es[0]) {
        ParseShort(list, start, es[0], end);
        UndersizedEndsWalk(list, ParseAt(list, start).value);
      } else {
        ParseWritten(list, start, es[0], end);
        ShortDropsRest(list, end, es[1..]);
      }
    } else {
      assert |list[start..]| == 0;
    }
  }

  /** An unnamed empty-sized document and a boolean "A" behind it: the walk reports one element and success. */
  lemma BooleanDropped()
    ensures var list := [TYPE_DOCUMENT, 0, 0, 0, 0, 0, TYPE_BOOLEAN, 65, 0, 1];
      var w := WalkFrom(list, 0); w.stop == NotFound && |w.elements| == 1
  {
    hide Le32, ValueSize, ParseAt, WellSized;
    var list: Bytes := [TYPE_DOCUMENT, 0, 0, 0, 0, 0, TYPE_BOOLEAN, 65, 0, 1];
    var short, bool_ := Raw(TYPE_DOCUMENT, [], [0, 0, 0, 0]), Raw(TYPE_BOOLEAN, [65], [1]);
    ZeroSize();
    assert Short(short);
    BooleanSized(bool_);
    var es := [short, bool_];
    assert Body(es[1..]) == ElementBytes(bool_) + Body([]);
    assert list[0..] == Body(es);
    ShortDropsRest(list, 0, es);
  }

  lemma ZeroSize()
    ensures Le32(0) == [0, 0, 0, 0]
  {
  }

  lemma BooleanSized(r: Raw)
    requires r.kind == TYPE_BOOLEAN && |r.payload| == 1
    ensures WellSized(r)
  {
  }
}
