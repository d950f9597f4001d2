/** The introspection string: the size reserved for it and the text written into it. */
module Introspection {
  import opened Bytes
  import opened Decimals

  const NAME_MAX_SIZE := 128
  const COLON: Byte := 58
  const SEMICOLON: Byte := 59

  datatype Interface = Interface(name: Text, major: U32, minor: U32)

  /** An interface as the introspection names it. */
  function Item(i: Interface): Text {
    i.name + [COLON] + Decimal(i.major) + [COLON] + Decimal(i.minor)
  }

  /** The items with a separator between any two. */
  function Joined(list: seq<Interface>): Text {
    if list == [] then [] else if |list| == 1 then Item(list[0]) else Item(list[0]) + [SEMICOLON] + Joined(list[1..])
  }

  /** The items with a separator after each. */
  function Separated(list: seq<Interface>): Text {
    if list == [] then [] else Item(list[0]) + [SEMICOLON] + Separated(list[1..])
  }

  lemma {:induction false} SeparatedIsJoined(list: seq<Interface>)
    requires list != []
    ensures Separated(list) == Joined(list) + [SEMICOLON]
  {
    if |list| > 1 {
      SeparatedIsJoined(list[1..]);
    }
  }

  lemma {:induction false} SeparatedConcat(a: seq<Interface>, b: seq<Interface>)
    ensures Separated(a + b) == Separated(a) + Separated(b)
  {
    if a == [] {
      assert a + b == b;
    } else {
      assert (a + b)[1..] == a[1..] + b;
      SeparatedConcat(a[1..], b);
    }
  }

  lemma SeparatedNext(list: seq<Interface>, i: nat)
    requires i < |list|
    ensures Separated(list[..i + 1]) == Separated(list[..i]) + (Item(list[i]) + [SEMICOLON])
    ensures |Separated(list[..i + 1])| <= |Separated(list)|
  {
    hide Item;
    assert list[..i + 1] == list[..i] + [list[i]];
    SeparatedConcat(list[..i], [list[i]]);
    assert Separated([list[i]]) == Item(list[i]) + [SEMICOLON] + Separated([]);
    assert list == list[..i + 1] + list[i + 1..];
    SeparatedConcat(list[..i + 1], list[i + 1..]);
  }

  /** The bytes reserved, which do not count more than 128 bytes of a name. */
  function Reserved(list: seq<Interface>): nat {
    if list == [] then 0
    else
      |Item(list[0])| + 1 - (if |list[0].name| > NAME_MAX_SIZE then |list[0].name| - NAME_MAX_SIZE else 0)
      + Reserved(list[1..])
  }

  function ReservedSize(list: seq<Interface>): nat {
    if list == [] then 1 else Reserved(list)
  }

  lemma {:induction false} ReservedConcat(a: seq<Interface>, b: seq<Interface>)
    ensures Reserved(a + b) == Reserved(a) + Reserved(b)
  {
    if a == [] {
      assert a + b == b;
    } else {
      assert (a + b)[1..] == a[1..] + b;
      ReservedConcat(a[1..], b);
    }
  }

  /** What is reserved is exactly what the text takes, if and only if no name is over-long. */
  lemma {:induction false} ReservedFits(list: seq<Interface>)
    ensures Reserved(list) <= |Separated(list)|
    ensures Reserved(list) == |Separated(list)| <==> forall i :: i in list ==> |i.name| <= NAME_MAX_SIZE
  {
    if list != [] {
      hide Item;
      ReservedFits(list[1..]);
      assert list == [list[0]] + list[1..];
    }
  }

  /** The size of the introspection is that of its text and a terminator: no byte too few, no byte too many. */
  lemma SizeIsExact(list: seq<Interface>)
    requires forall i :: i in list ==> |i.name| <= NAME_MAX_SIZE
    ensures ReservedSize(list) == |Joined(list)| + 1
  {
    hide Item;
    ReservedFits(list);
    if list != [] {
      SeparatedIsJoined(list);
    }
  }

  method GetDigitCount(num: U32) returns (count: nat)
    ensures count == |Decimal(num)|
  {
    count := 1;
    var n := num;
    while n > 9
      invariant |Decimal(num)| == count - 1 + |Decimal(n)|
    {
      n := n / 10;
      count := count + 1;
    }
  }

  /** Length of a C string, looking at no more than `max` bytes. */
  method Strnlen(s: Text, max: nat) returns (n: nat)
    ensures n <= max && n <= |s| && (n == max || n == |s|)
  {
    n := 0;
    while n < max && n < |s|
      invariant n <= max && n <= |s|
    {
      n := n + 1;
    }
  }

  /** As much of a text as fits before a terminator. */
  function Shown(text: Text, size: nat): Text
    requires size > 0
  {
    if |text| < size then text else text[..size - 1]
  }

  /** A text and a terminator are at the start. */
  predicate Shows(buffer: seq<Byte>, text: Text) {
    |text| < |buffer| && buffer[..|text|] == text && buffer[|text|] == 0
  }

  lemma ShownNext(a: Text, b: Text, size: nat)
    requires size > 0 && |a| <= size
    ensures Shown(a + b, size) == if |a| < size then a + Shown(b, size - |a|) else Shown(a, size)
  {
    if |a| == size {
      assert (a + b)[..size - 1] == a[..size - 1];
    }
  }

  lemma ShowsBehind(was: seq<Byte>, now: seq<Byte>, before: Text, rest: Text)
    requires |was| == |now| && |before| < |was| && now[..|before|] == was[..|before|]
    requires before != [] ==> Shows(was, Shown(before, |was|))
    requires Shows(now[|before|..], rest)
    ensures Shows(now, before + rest)
  {
    assert now[..|before|] == before;
    assert now[..|before + rest|] == now[..|before|] + now[|before|..][..|rest|];
  }

  lemma ShowsTerminated(buffer: seq<Byte>, text: Text)
    requires buffer != [] && Shows(buffer, Shown(text, |buffer|))
    ensures Shows(buffer[|buffer| - 1 := 0], Shown(text, |buffer|))
  {
    var n := |Shown(text, |buffer|)|;
    assert buffer[|buffer| - 1 := 0][..n] == buffer[..n];
  }

  /** Writes a text and a terminator at an offset, no more than `size` bytes of it, and returns the length of the text. */
  method Snprintf(buffer: array<Byte>, at: nat, size: nat, text: Text) returns (length: nat)
    requires at + size <= buffer.Length
    modifies buffer
    ensures length == |text|
    ensures buffer[..at] == old(buffer[..at])
    ensures size == 0 ==> buffer[..] == old(buffer[..])
    ensures size > 0 ==> Shows(buffer[at..], Shown(text, size))
    ensures forall k :: at + size <= k < buffer.Length ==> buffer[k] == old(buffer[k])
  {
    length := |text|;
    if size == 0 {
      return;
    }
    var n := if |text| < size then |text| else size - 1;
    for k := 0 to n
      invariant buffer[..at] == old(buffer[..at]) && buffer[at..at + k] == text[..k]
      invariant forall j :: at + size <= j < buffer.Length ==> buffer[j] == old(buffer[j])
    {
      buffer[at + k] := text[k];
      assert buffer[at..at + k + 1] == buffer[at..at + k] + [text[k]];
    }
    buffer[at + n] := 0;
    assert buffer[at..][..n] == buffer[at..at + n] == text[..n];
  }

  class List {
    var interfaces: seq<Interface>

    constructor ()
      ensures interfaces == []
    {
      interfaces := [];
    }

    method GetStringSize() returns (len: nat)
      ensures len == ReservedSize(interfaces)
    {
      hide Decimal;
      len := 0;
      for i := 0 to |interfaces|
        invariant len == Reserved(interfaces[..i])
      {
        var nameLen := Strnlen(interfaces[i].name, NAME_MAX_SIZE);
        var majorLen := GetDigitCount(interfaces[i].major);
        var minorLen := GetDigitCount(interfaces[i].minor);
        assert interfaces[..i + 1] == interfaces[..i] + [interfaces[i]];
        ReservedConcat(interfaces[..i], [interfaces[i]]);
        len := len + nameLen + majorLen + minorLen + 3;
      }
      assert interfaces[..|interfaces|] == interfaces;
      if len < 1 {
        ReservedSome(interfaces);
        len := 1;
      }
    }

    /** Into a buffer that every offset reaches, of whatever size, goes the text as far as it fits, with a terminator
        behind it. Nothing is written for an empty list but the terminator in the last byte. */
    method FillString(buffer: array<Byte>)
      requires buffer.Length > 0
      requires StaysInside(interfaces, buffer.Length)
      modifies buffer
      ensures interfaces != [] ==> Shows(buffer[..], Shown(Separated(interfaces), buffer.Length))
      ensures buffer[buffer.Length - 1] == 0
      ensures (forall i :: i in interfaces ==> |i.name| <= NAME_MAX_SIZE) && buffer.Length == ReservedSize(interfaces) ==>
        buffer[..] == Joined(interfaces) + [0]
    {
      hide Item, Separated, Shown, Joined, Reserved;
      var size, resultLen := buffer.Length, 0;
      SeparatedNone();
      for i := 0 to |interfaces|
        invariant resultLen == |Separated(interfaces[..i])|
        invariant i < |interfaces| ==> resultLen <= size
        invariant i > 0 ==> Shows(buffer[..], Shown(Separated(interfaces[..i]), size))
      {
        PrefixInside(interfaces, i + 1, size);
        var text := Item(interfaces[i]) + [SEMICOLON];
        ghost var before := Separated(interfaces[..i]);
        SeparatedNext(interfaces, i);
        ShownNext(before, text, size);
        ghost var was := buffer[..];
        var written := Snprintf(buffer, resultLen, size - resultLen, text);
        if resultLen < size {
          ShowsBehind(was, buffer[..], before, Shown(text, size - resultLen));
        }
        resultLen := resultLen + written;
      }
      assert interfaces[..|interfaces|] == interfaces;
      ghost var was := buffer[..];
      buffer[size - 1] := 0;
      if interfaces != [] {
        ShowsTerminated(was, Separated(interfaces));
        assert buffer[..] == was[size - 1 := 0];
      }
      if (forall i :: i in interfaces ==> |i.name| <= NAME_MAX_SIZE) && size == ReservedSize(interfaces) {
        ReservedShows(interfaces, buffer[..]);
      }
    }
  }

  /** The offset of every item is inside the buffer or at its end, which the code does not check. */
  predicate StaysInside(list: seq<Interface>, size: nat) {
    list != [] ==> |Separated(list[..|list| - 1])| <= size
  }

  /** How many bytes of the names the size leaves out. */
  function Excess(list: seq<Interface>): nat {
    if list == [] then 0
    else (if |list[0].name| > NAME_MAX_SIZE then |list[0].name| - NAME_MAX_SIZE else 0) + Excess(list[1..])
  }

  lemma {:induction false} ReservedLacks(list: seq<Interface>)
    ensures Reserved(list) + Excess(list) == |Separated(list)|
  {
    hide Item;
    if list != [] {
      ReservedLacks(list[1..]);
    }
  }

  /** Writing into the reserved size stays inside exactly when the bytes left out before the last interface are no more
      than the bytes reserved for the last. */
  lemma InsideIff(list: seq<Interface>)
    requires list != []
    ensures var last := |list| - 1;
      StaysInside(list, ReservedSize(list)) <==> Excess(list[..last]) <= Reserved(list[last..])
  {
    hide Item;
    var last := |list| - 1;
    assert list == list[..last] + list[last..];
    ReservedConcat(list[..last], list[last..]);
    ReservedLacks(list[..last]);
    ReservedSome(list);
  }

  lemma {:induction false} ExcessNone(list: seq<Interface>)
    requires forall i :: i in list ==> |i.name| <= NAME_MAX_SIZE
    ensures Excess(list) == 0
  {
    if list != [] {
      ExcessNone(list[1..]);
    }
  }

  /** Names within the limit keep the writing inside, and the terminator falls on the last separator. */
  lemma ReservedIsText(list: seq<Interface>)
    requires forall i :: i in list ==> |i.name| <= NAME_MAX_SIZE
    ensures StaysInside(list, ReservedSize(list))
    ensures ReservedSize(list) - 1 == |Joined(list)| <= |Separated(list)|
    ensures Separated(list)[..|Joined(list)|] == Joined(list)
    ensures |Separated(list)| == if list == [] then 0 else |Joined(list)| + 1
  {
    hide Item;
    SizeIsExact(list);
    if list != [] {
      InsideIff(list);
      ExcessNone(list[..|list| - 1]);
      SeparatedIsJoined(list);
    }
  }

  /** A short interface after one whose name is 150 bytes long is written beyond the buffer. */
  lemma LongNameWritesOutside(long: Interface, short: Interface)
    requires |long.name| == 150 && |short.name| == 1 && short.major == 0 && short.minor == 1
    ensures !StaysInside([long, short], ReservedSize([long, short]))
  {
    hide Joined;
    assert [long, short][..1] == [long] && [long, short][1..] == [short];
    InsideIff([long, short]);
  }

  /** With names within the limit, a buffer of the reserved size holds exactly the introspection. */
  lemma ReservedShows(list: seq<Interface>, buffer: seq<Byte>)
    requires forall i :: i in list ==> |i.name| <= NAME_MAX_SIZE
    requires |buffer| == ReservedSize(list) && buffer[|buffer| - 1] == 0
    requires list != [] ==> Shows(buffer, Shown(Separated(list), |buffer|))
    ensures buffer == Joined(list) + [0]
  {
    hide Item, Joined, Separated, Reserved;
    ReservedIsText(list);
    ReservedSome(list);
    assert Shown(Separated(list), |buffer|) == Joined(list);
    assert buffer == buffer[..|buffer| - 1] + [0];
  }

  lemma PrefixInside(list: seq<Interface>, i: nat, size: nat)
    requires i <= |list| && StaysInside(list, size)
    ensures i < |list| ==> |Separated(list[..i])| <= size
  {
    hide Item;
    if i < |list| {
      var front := list[..|list| - 1];
      assert front == list[..i] + front[i..];
      SeparatedConcat(list[..i], front[i..]);
    }
  }

  lemma ReservedSome(list: seq<Interface>)
    ensures Reserved(list) == 0 <==> list == []
  {
  }

  lemma SeparatedNone()
    ensures Separated([]) == []
  {
  }
}
