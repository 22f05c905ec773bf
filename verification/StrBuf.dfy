/** The growable text buffer every request, statement and parsed string is built in (src/json.c). */
module StrBuf {
  import opened Json

  function Pow2(k: nat): (r: nat)
    ensures r > 0
  {
    if k == 0 then 1 else 2 * Pow2(k - 1)
  }

  /** `from` doubled until it is at least `wanted`. */
  function Doubled(from: nat, wanted: nat): (r: nat)
    requires from > 0
    ensures r >= wanted && r >= from
    decreases wanted - from
  {
    if from >= wanted then from else Doubled(2 * from, wanted)
  }

  /** The capacity for a given number of bytes. */
  function Room(wanted: nat): (r: nat)
    ensures r >= wanted && r >= 256
  {
    Doubled(256, wanted)
  }

  /** The capacity is the smallest 256 * 2^k that will do. */
  lemma {:induction false} RoomIsLeast(wanted: nat)
    ensures exists k: nat :: Room(wanted) == 256 * Pow2(k) && forall j :: 0 <= j < k ==> 256 * Pow2(j) < wanted
  {
    var k := DoubledIsLeast(0, wanted);
  }

  lemma {:induction false} DoubledIsLeast(i: nat, wanted: nat) returns (k: nat)
    requires forall j :: 0 <= j < i ==> 256 * Pow2(j) < wanted
    ensures Doubled(256 * Pow2(i), wanted) == 256 * Pow2(k)
    ensures forall j :: 0 <= j < k ==> 256 * Pow2(j) < wanted
    decreases wanted - Pow2(i)
  {
    if 256 * Pow2(i) >= wanted {
      k := i;
    } else {
      assert 2 * (256 * Pow2(i)) == 256 * Pow2(i + 1);
      k := DoubledIsLeast(i + 1, wanted);
    }
  }

  /** So it depends on the length alone, not on the appends it took to get there. */
  lemma {:induction false} DoublingContinues(from: nat, small: nat, large: nat)
    requires from > 0 && small <= large
    ensures Doubled(Doubled(from, small), large) == Doubled(from, large)
    decreases small - from
  {
    if from < small { DoublingContinues(2 * from, small, large); }
  }

  lemma {:induction false} DoubledIsTight(from: nat, wanted: nat)
    requires from > 0
    ensures Doubled(from, wanted) == from || Doubled(from, wanted) < 2 * wanted
    decreases wanted - from
  {
    if from < wanted { DoubledIsTight(2 * from, wanted); }
  }

  class Buffer {
    var data: array<char>
    var length: nat
    var capacity: nat
    /** Bytes carried over by every reallocation so far. */
    ghost var moved: nat

    ghost predicate Valid()
      reads this, data
    {
      && data.Length == capacity
      && if capacity == 0 then length == 0 && moved == 0
         else capacity == Room(length + 1) && moved < capacity && data[length] == '\0'
    }

    ghost function Contents(): string
      reads this, data
      requires Valid()
    {
      data[..length]
    }

    constructor ()
      ensures Valid() && fresh(data) && Contents() == ""
    {
      data := new char[0];
      length, capacity, moved := 0, 0, 0;
    }

    /** What Valid() says about the space used: at most double what the text needs, or the first 256 bytes. */
    lemma SpaceUsed()
      requires Valid()
      ensures capacity == 0 || capacity == 256 || capacity < 2 * (length + 1)
      ensures capacity == 0 || exists k: nat :: capacity == 256 * Pow2(k)
      ensures moved == 0 || moved < capacity
    {
      DoubledIsTight(256, length + 1);
      RoomIsLeast(length + 1);
    }

    /** strbuf_reserve. */
    method Reserve(extra: nat)
      requires Valid()
      modifies this
      ensures fresh(data) || data == old(data)
      ensures data.Length == capacity == Room(length + extra + 1)
      ensures length == old(length) && data[..length] == old(data[..length])
      ensures moved < capacity
    {
      DoublingContinues(256, length + 1, length + extra + 1);
      if length + extra + 1 <= capacity { return; }
      var wanted := if capacity != 0 then capacity else 256;
      while wanted < length + extra + 1
        invariant wanted > 0
        invariant Doubled(wanted, length + extra + 1) == Room(length + extra + 1)
        invariant capacity == 0 || wanted == capacity || wanted >= 2 * capacity
      {
        wanted := wanted * 2;
      }
      var grown := new char[wanted];
      forall i | 0 <= i < capacity { grown[i] := data[i]; }
      moved := moved + capacity;
      data := grown;
      capacity := wanted;
    }

    /** fl_strbuf_append_len. */
    method Append(text: string)
      requires Valid()
      modifies this, data
      ensures Valid() && (fresh(data) || data == old(data))
      ensures Contents() == old(Contents()) + text
      ensures length < data.Length && data[length] == '\0'
    {
      hide Room;
      Reserve(|text|);
      forall i | 0 <= i < |text| { data[length + i] := text[i]; }
      length := length + |text|;
      data[length] := '\0';
      assert data[..length] == old(data[..length]) + text;
    }

    /** fl_strbuf_append_json_string. */
    method AppendJsonString(text: string)
      requires Valid()
      modifies this, data
      ensures Valid() && (fresh(data) || data == old(data))
      ensures Contents() == old(Contents()) + Quote(text)
    {
      hide Room, EscapeByte, EscapeAll, Quote;
      ghost var whole := Contents() + "\"" + EscapeAll(text);
      Append("\"");
      var c := 0;
      while c < |text|
        invariant 0 <= c <= |text|
        invariant Valid() && (fresh(data) || data == old(data))
        invariant Contents() + EscapeAll(text[c..]) == whole
      {
        EscapeNext(Contents(), text, c);
        Append(EscapeByte(text[c]));
        c := c + 1;
      }
      EscapeEnd(old(Contents()), Contents(), text);
      Append("\"");
    }
  }

  lemma NothingToEscape()
    ensures EscapeAll("") == ""
  {
  }

  lemma {:induction false} EscapeEnd(before: string, done: string, text: string)
    requires done + EscapeAll(text[|text|..]) == before + "\"" + EscapeAll(text)
    ensures done + "\"" == before + Quote(text)
  {
    hide EscapeAll;
    NothingToEscape();
    assert text[|text|..] == "";
    assert done + "" == done;
    Enclosed(before, "\"", EscapeAll(text));
  }

  lemma Enclosed(before: string, q: string, e: string)
    ensures before + q + e + q == before + (q + e + q)
  {
  }

  lemma EscapeNext(done: string, text: string, c: nat)
    requires c < |text|
    ensures done + EscapeAll(text[c..]) == done + EscapeByte(text[c]) + EscapeAll(text[c + 1..])
  {
    hide EscapeByte;
    assert text[c..][1..] == text[c + 1..];
  }
}
