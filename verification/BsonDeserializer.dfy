/** The cursor parser over untrusted BSON bytes. A document is read through its list alone, so that every access is
    proved to lie inside it. */
module BsonDeserializer {
  import opened Options
  import opened Bytes
  import opened BsonFormat

  /** The list is what the declared size leaves for it; a size below that of an empty document leaves nothing. */
  predicate IsDocument(doc: Document) {
    if doc.size >= EMPTY_DOCUMENT then |doc.list| == doc.size - EMPTY_DOCUMENT else doc.list == []
  }

  /** A buffer that holds a document in full. */
  predicate HoldsDocument(buffer: Bytes) {
    && EMPTY_DOCUMENT <= |buffer|
    && EMPTY_DOCUMENT <= Get32(buffer, 0) <= |buffer|
    && buffer[Get32(buffer, 0) - 1] == 0
  }

  method CheckValidity(buffer: Bytes) returns (valid: bool)
    ensures valid ==> HoldsDocument(buffer)
    ensures valid <==>
      && |buffer| >= 5
      && var size := Get32(buffer, 0);
         && 5 <= size <= |buffer| && buffer[size - 1] == 0
         && (size == 5 || (size >= 8 && buffer[4] in [0x01, 0x02, 0x03, 0x04, 0x05, 0x08, 0x09, 0x10, 0x12]))
  {
    if |buffer| < SIZE_BYTES + NULL_TERM_SIZE {
      return false;
    }
    var size := Get32(buffer, 0);
    if |buffer| < size {
      return false;
    }
    if size < EMPTY_DOCUMENT {
      return false;
    }
    if buffer[SIZE_BYTES + (size - SIZE_BYTES) - NULL_TERM_SIZE] != 0 {
      return false;
    }
    if size == EMPTY_DOCUMENT {
      return true;
    }
    if size < SIZE_BYTES + 3 + NULL_TERM_SIZE {
      return false;
    }
    return IsKind(buffer[SIZE_BYTES]);
  }

  /** The document at an offset of a buffer that holds all of it. */
  function InitDoc(buffer: Bytes, at: nat): (doc: Document)
    requires at + 4 <= |buffer| && (Get32(buffer, at) < EMPTY_DOCUMENT || at + Get32(buffer, at) <= |buffer|)
    ensures IsDocument(doc)
  {
    var size := Get32(buffer, at);
    if size >= EMPTY_DOCUMENT then Document(size, buffer[at + SIZE_BYTES..at + size - NULL_TERM_SIZE])
    else Document(size, [])
  }

  predicate IsWithinBounds(list: Bytes, at: nat, size: nat) {
    at <= |list| && size <= |list| - at
  }

  method GetElementValueSize(list: Bytes, kind: Byte, value: nat) returns (code: Status, size: nat)
    ensures code == Ok || code == InternalError
    ensures value <= |list| ==> ValueSize(list, kind, value) == if code == Ok then Some(size) else None
  {
    if kind == TYPE_DOUBLE || kind == TYPE_DATETIME || kind == TYPE_INT64 {
      return Ok, 8;
    } else if kind == TYPE_INT32 {
      return Ok, 4;
    } else if kind == TYPE_BOOLEAN {
      return Ok, 1;
    } else if kind == TYPE_STRING {
      if !IsWithinBounds(list, value, 4) {
        return InternalError, 0;
      }
      var parsedLen := Get32(list, value);
      if parsedLen > UINT32_MAX - 4 {
        return InternalError, 0;
      }
      return Ok, 4 + parsedLen;
    } else if kind == TYPE_ARRAY || kind == TYPE_DOCUMENT {
      if !IsWithinBounds(list, value, 4) {
        return InternalError, 0;
      }
      return Ok, Get32(list, value);
    } else if kind == TYPE_BINARY {
      if !IsWithinBounds(list, value, 4) {
        return InternalError, 0;
      }
      var parsedLen := Get32(list, value);
      if parsedLen > UINT32_MAX - 5 {
        return InternalError, 0;
      }
      return Ok, 5 + parsedLen;
    } else {
      return InternalError, 0;
    }
  }

  /** Length of the string at an offset, at most `max`. */
  method Strnlen(list: Bytes, at: nat, max: nat) returns (n: nat)
    requires at + max == |list|
    ensures at + n == NulFrom(list, at)
  {
    n := 0;
    while n < max && list[at + n] != 0
      invariant n <= max && NulFrom(list, at) == NulFrom(list, at + n)
    {
      n := n + 1;
    }
  }

  /** Reads the header of the element at an offset and checks that its value fits. */
  method ReadElement(list: Bytes, start: nat) returns (code: Status, e: Element)
    requires start < |list|
    ensures ParseAt(list, start) == if code == Ok then Some(e) else None
    ensures code == Ok || code == InternalError
  {
    hide ValueSize;
    e := Element(list[start], [], 0);
    var maxNameLen := |list| - start - 1;
    var nameLen := Strnlen(list, start + 1, maxNameLen);
    if nameLen + NULL_TERM_SIZE > maxNameLen {
      return InternalError, e;
    }
    e := Element(list[start], list[start + 1..start + 1 + nameLen], start + 1 + nameLen + NULL_TERM_SIZE);
    var valSize;
    code, valSize := GetElementValueSize(list, e.kind, e.value);
    if code != Ok {
      return InternalError, e;
    }
    if !IsWithinBounds(list, e.value, valSize) {
      return InternalError, e;
    }
    return Ok, e;
  }

  /** What the next call has to answer, given the rest of the walk. */
  ghost predicate Steps(w: Walk, code: Status, e: Element) {
    if w.elements == [] then code == w.stop else code == Ok && e == w.elements[0]
  }

  method FirstElement(doc: Document) returns (code: Status, e: Element)
    requires IsDocument(doc)
    ensures Steps(WalkOf(doc), code, e)
    ensures code == Ok ==> Inside(doc.list, e) && WalkOf(doc) == Cons(e, WalkFrom(doc.list, EndOf(doc.list, e)))
    ensures code == Ok || code == NotFound || code == InternalError
  {
    hide ValueSize;
    e := Element(0, [], 0);
    if doc.size <= EMPTY_DOCUMENT {
      return NotFound, e;
    }
    code, e := ReadElement(doc.list, 0);
  }

  predicate Fits(list: Bytes, e: Element) {
    e.value <= |list| && ValueSize(list, e.kind, e.value).Some? && EndOf(list, e) <= |list|
  }

  /** An element that does not lie inside the document has no successor. */
  method NextElement(doc: Document, curr: Element) returns (code: Status, e: Element)
    requires IsDocument(doc)
    ensures !Fits(doc.list, curr) ==> code == InternalError
    ensures Fits(doc.list, curr) ==>
      && Steps(WalkFrom(doc.list, EndOf(doc.list, curr)), code, e)
      && (code == Ok ==>
        Inside(doc.list, e) && EndOf(doc.list, curr) < e.value
        && WalkFrom(doc.list, EndOf(doc.list, curr)) == Cons(e, WalkFrom(doc.list, EndOf(doc.list, e))))
    ensures code == Ok || code == NotFound || code == InternalError
  {
    hide ValueSize;
    e := curr;
    var size;
    code, size := GetElementValueSize(doc.list, curr.kind, curr.value);
    if code != Ok {
      return InternalError, e;
    }
    if !IsWithinBounds(doc.list, curr.value, size) {
      return InternalError, e;
    }
    var next := curr.value + size;
    if next >= |doc.list| {
      return NotFound, e;
    }
    if doc.list[next] == 0 {
      return NotFound, e;
    }
    code, e := ReadElement(doc.list, next);
  }

  /** Counts the elements: it succeeds exactly when the walk reaches the end, and the count is that of the walk. */
  method DocCountElements(doc: Document) returns (code: Status, count: nat)
    requires IsDocument(doc)
    ensures if WalkOf(doc).stop == NotFound then code == Ok && count == |WalkOf(doc).elements|
            else code == WalkOf(doc).stop == InternalError
  {
    hide ValueSize, WalkOf, WalkFrom;
    count := 0;
    var e;
    code, e := FirstElement(doc);
    if code == NotFound {
      return Ok, 0;
    }
    if code != Ok {
      return code, 0;
    }
    var length := 0;
    while code == Ok
      invariant code == Ok ==>
        && Inside(doc.list, e)
        && length + 1 + |WalkFrom(doc.list, EndOf(doc.list, e)).elements| == |WalkOf(doc).elements|
        && WalkOf(doc).stop == WalkFrom(doc.list, EndOf(doc.list, e)).stop
      invariant code != Ok ==> length == |WalkOf(doc).elements| && code == WalkOf(doc).stop
      invariant code == Ok || code == NotFound || code == InternalError
      decreases if code == Ok then |doc.list| - e.value + 1 else 0
    {
      length := length + 1;
      code, e := NextElement(doc, e);
    }
    if code != NotFound {
      return code, 0;
    }
    return Ok, length;
  }

  /** The first element with a name, or the reason why the walk stopped before one. */
  function FirstNamed(es: seq<Element>, key: Text): (k: nat)
    ensures k <= |es| && (k < |es| ==> es[k].name == key) && forall j :: 0 <= j < k ==> es[j].name != key
  {
    if es == [] || es[0].name == key then 0 else 1 + FirstNamed(es[1..], key)
  }

  method ElementLookup(doc: Document, key: Text) returns (code: Status, e: Element)
    requires IsDocument(doc)
    ensures var w := WalkOf(doc);
      var k := FirstNamed(w.elements, key);
      if k < |w.elements| then code == Ok && e == w.elements[k] else code == w.stop
  {
    hide ValueSize, WalkOf, WalkFrom;
    code, e := FirstElement(doc);
    if code != Ok {
      return;
    }
    ghost var before := 0;
    while e.name != key
      invariant code == Ok && Inside(doc.list, e)
      invariant before < |WalkOf(doc).elements|
      invariant WalkOf(doc).elements[before..] == Cons(e, WalkFrom(doc.list, EndOf(doc.list, e))).elements
      invariant WalkOf(doc).stop == WalkFrom(doc.list, EndOf(doc.list, e)).stop
      invariant FirstNamed(WalkOf(doc).elements, key) == before + FirstNamed(WalkOf(doc).elements[before..], key)
      decreases |doc.list| - e.value
    {
      ghost var rest := WalkOf(doc).elements[before..];
      assert rest[1..] == WalkOf(doc).elements[before + 1..];
      code, e := NextElement(doc, e);
      if code != Ok {
        return;
      }
      before := before + 1;
    }
  }

  // ---- values

  predicate IsA(list: Bytes, e: Element, kind: Byte) {
    Inside(list, e) && e.kind == kind
  }

  function ElementToDouble(list: Bytes, e: Element): U64
    requires IsA(list, e, TYPE_DOUBLE)
  {
    Get64(list, e.value)
  }

  /** The bytes of a string without its terminator; a declared length of zero leaves none. */
  function ElementToString(list: Bytes, e: Element): (s: Bytes)
    requires IsA(list, e, TYPE_STRING)
    ensures |s| == if Get32(list, e.value) == 0 then 0 else EndOf(list, e) - e.value - 4 - NULL_TERM_SIZE
    ensures s == list[e.value + 4..e.value + 4 + |s|]
  {
    var parsedLen := Get32(list, e.value);
    var len := if parsedLen >= NULL_TERM_SIZE then parsedLen - NULL_TERM_SIZE else 0;
    list[e.value + 4..e.value + 4 + len]
  }

  function ElementToBinary(list: Bytes, e: Element): (b: Bytes)
    requires IsA(list, e, TYPE_BINARY)
    ensures b == list[e.value + 5..EndOf(list, e)]
  {
    list[e.value + 5..e.value + 5 + Get32(list, e.value)]
  }

  function ElementToBool(list: Bytes, e: Element): bool
    requires IsA(list, e, TYPE_BOOLEAN)
  {
    list[e.value] != 0
  }

  function ElementToDatetime(list: Bytes, e: Element): I64
    requires IsA(list, e, TYPE_DATETIME)
  {
    Signed64(Get64(list, e.value))
  }

  function ElementToInt32(list: Bytes, e: Element): I32
    requires IsA(list, e, TYPE_INT32)
  {
    Signed(Get32(list, e.value))
  }

  function ElementToInt64(list: Bytes, e: Element): I64
    requires IsA(list, e, TYPE_INT64)
  {
    Signed64(Get64(list, e.value))
  }

  /** A nested document or array. */
  function ElementToDocument(list: Bytes, e: Element): (doc: Document)
    requires IsA(list, e, TYPE_DOCUMENT) || IsA(list, e, TYPE_ARRAY)
    ensures IsDocument(doc)
    ensures doc.size >= EMPTY_DOCUMENT ==>
      && EndOf(list, e) == e.value + SIZE_BYTES + |doc.list| + NULL_TERM_SIZE
      && doc.list == list[e.value + SIZE_BYTES..EndOf(list, e) - NULL_TERM_SIZE]
  {
    InitDoc(list, e.value)
  }

  // ---- what holds for every buffer

  /** Everything found in a document that a buffer holds lies, in order, between its size field and its terminator. */
  lemma BufferInside(buffer: Bytes)
    requires HoldsDocument(buffer)
    ensures var doc := InitDoc(buffer, 0);
      && doc.list == buffer[SIZE_BYTES..doc.size - NULL_TERM_SIZE]
      && Advancing(doc.list, WalkOf(doc).elements, 0)
      && forall e :: e in WalkOf(doc).elements ==> SIZE_BYTES + EndOf(doc.list, e) <= doc.size - NULL_TERM_SIZE
  {
    hide ValueSize;
    WalkAdvances(InitDoc(buffer, 0).list, 0);
  }

  /** And what is found in a nested document lies inside the value that the nested document is. */
  lemma NestedInside(list: Bytes, e: Element)
    requires IsA(list, e, TYPE_DOCUMENT) || IsA(list, e, TYPE_ARRAY)
    ensures var doc := ElementToDocument(list, e);
      && Advancing(doc.list, WalkOf(doc).elements, 0)
      && forall x :: x in WalkOf(doc).elements ==>
           e.value + SIZE_BYTES + EndOf(doc.list, x) <= EndOf(list, e) - NULL_TERM_SIZE
  {
    hide ValueSize;
    WalkAdvances(ElementToDocument(list, e).list, 0);
  }

  /** A way down into nested documents: each is an element of the one before. */
  ghost predicate IsPath(doc: Document, path: seq<Element>)
    decreases |path|
  {
    path == [] ||
    (path[0] in WalkOf(doc).elements
     && (IsA(doc.list, path[0], TYPE_DOCUMENT) || IsA(doc.list, path[0], TYPE_ARRAY))
     && IsPath(ElementToDocument(doc.list, path[0]), path[1..]))
  }

  ghost function DocumentAt(doc: Document, path: seq<Element>): Document
    requires IsPath(doc, path)
    decreases |path|
  {
    if path == [] then doc else DocumentAt(ElementToDocument(doc.list, path[0]), path[1..])
  }

  /** Where the list of the innermost document starts in the outermost list. */
  function OffsetAt(path: seq<Element>): nat {
    if path == [] then 0 else path[0].value + SIZE_BYTES + OffsetAt(path[1..])
  }

  /** The list of a nested document is a part of the outer list that leaves room for a terminator behind it, unless the
      nested document is too small to have a list. */
  lemma OneLevel(list: Bytes, e: Element)
    requires IsA(list, e, TYPE_DOCUMENT) || IsA(list, e, TYPE_ARRAY)
    ensures var inner, at := ElementToDocument(list, e), e.value + SIZE_BYTES;
      at + |inner.list| <= |list| && inner.list == list[at..at + |inner.list|]
  {
  }

  /** At any depth, the innermost list is the part of the outermost one at its offset, and everything found in it lies, in
      order, inside that part. */
  lemma {:induction false} PathInside(doc: Document, path: seq<Element>)
    requires IsDocument(doc) && IsPath(doc, path)
    ensures var inner, at := DocumentAt(doc, path), OffsetAt(path);
      && IsDocument(inner)
      && at + |inner.list| <= |doc.list| && inner.list == doc.list[at..at + |inner.list|]
      && Advancing(inner.list, WalkOf(inner).elements, 0)
      && forall x :: x in WalkOf(inner).elements ==> at + EndOf(inner.list, x) <= |doc.list|
    decreases |path|
  {
    hide ValueSize, ElementToDocument, WalkOf, EndOf;
    if path == [] {
      WalkInside(doc);
    } else {
      var e := path[0];
      var next := ElementToDocument(doc.list, e);
      OneLevel(doc.list, e);
      PathInside(next, path[1..]);
      var at, n := OffsetAt(path[1..]), |DocumentAt(doc, path).list|;
      PartOfPart(doc.list, e.value + SIZE_BYTES, e.value + SIZE_BYTES + |next.list|, at, at + n);
    }
  }

  lemma WalkInside(doc: Document)
    ensures Advancing(doc.list, WalkOf(doc).elements, 0)
    ensures forall x :: x in WalkOf(doc).elements ==> Inside(doc.list, x)
  {
    hide ValueSize;
    WalkAdvances(doc.list, 0);
  }

  /** So in every buffer that holds a document, at any depth of nesting, every element found lies between the size field
      and the terminator of the outermost document. */
  lemma AnyDepthInside(buffer: Bytes, path: seq<Element>)
    requires HoldsDocument(buffer) && IsPath(InitDoc(buffer, 0), path)
    ensures var doc := InitDoc(buffer, 0);
      var inner, at := DocumentAt(doc, path), SIZE_BYTES + OffsetAt(path);
      && IsDocument(inner)
      && at + |inner.list| <= doc.size - NULL_TERM_SIZE && inner.list == buffer[at..at + |inner.list|]
      && forall x :: x in WalkOf(inner).elements ==>
           Inside(inner.list, x) && at + EndOf(inner.list, x) <= doc.size - NULL_TERM_SIZE
  {
    hide ValueSize, WalkOf, EndOf, IsPath, DocumentAt, OffsetAt, Inside;
    var doc := InitDoc(buffer, 0);
    PathInside(doc, path);
    WalkInside(DocumentAt(doc, path));
    PartOfPart(buffer, SIZE_BYTES, SIZE_BYTES + |doc.list|, OffsetAt(path),
               OffsetAt(path) + |DocumentAt(doc, path).list|);
  }
}
