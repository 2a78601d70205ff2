/** Provider roster and exclusive placement (pg-gateway/src/registry.rs). */
module Registry {
  import opened Wrappers
  import opened Basics
  import opened Ordering

  const FNV_OFFSET: nat := 0xcbf29ce484222325
  const FNV_PRIME: nat := 0x100000001b3
  const TWO_64: nat := 0x1_0000_0000_0000_0000

  /** The UTF-8 bytes of one character. */
  function Utf8Char(c: char): seq<Byte> {
    var n := c as nat;
    if n < 0x80 then [n]
    else if n < 0x800 then [0xC0 + n / 0x40, 0x80 + n % 0x40]
    else if n < 0x10000 then [0xE0 + n / 0x1000, 0x80 + n / 0x40 % 0x40, 0x80 + n % 0x40]
    else [0xF0 + n / 0x40000, 0x80 + n / 0x1000 % 0x40, 0x80 + n / 0x40 % 0x40, 0x80 + n % 0x40]
  }

  function Utf8(s: string): seq<Byte> {
    if s == [] then [] else Utf8Char(s[0]) + Utf8(s[1..])
  }

  /** Exclusive or, bit by bit from the lowest. */
  function Xor(a: nat, b: nat, bits: nat): nat {
    if bits == 0 then 0 else Xor(a / 2, b / 2, bits - 1) * 2 + if a % 2 == b % 2 then 0 else 1
  }

  /** `hash ^ byte`: only the low eight bits change. */
  function XorLow(hash: nat, byte: Byte): nat {
    hash / 256 * 256 + Xor(hash % 256, byte, 8)
  }

  /** `wrapping_mul` on 64 bits. */
  function WrappingMul(a: nat, b: nat): nat {
    a * b % TWO_64
  }

  /** FNV-1a of a byte string, from its first byte to its last. */
  function FnvFold(bytes: seq<Byte>): nat {
    if bytes == [] then FNV_OFFSET
    else WrappingMul(XorLow(FnvFold(bytes[..|bytes| - 1]), bytes[|bytes| - 1]), FNV_PRIME)
  }

  method Fnv1a(input: string) returns (hash: nat)
    ensures hash == FnvFold(Utf8(input)) && hash < TWO_64
  {
    var bytes := Utf8(input);
    hash := FNV_OFFSET;
    for i := 0 to |bytes|
      invariant hash == FnvFold(bytes[..i]) && hash < TWO_64
    {
      assert bytes[..i + 1][..i] == bytes[..i];
      hash := XorLow(hash, bytes[i]);
      hash := WrappingMul(hash, FNV_PRIME);
    }
    assert bytes[..|bytes|] == bytes;
  }

  /** The number of bytes that a first byte announces. */
  function Announced(b: Byte): nat {
    if b < 0x80 then 1 else if b < 0xE0 then 2 else if b < 0xF0 then 3 else 4
  }

  /** The code point spelled by the first bytes: six bits from each byte after the first. */
  function CodePoint(bytes: seq<Byte>, n: nat): int
    requires 1 <= n <= |bytes|
  {
    if n == 1 then
      var b := bytes[0];
      if b < 0x80 then b else if b < 0xE0 then b - 0xC0 else if b < 0xF0 then b - 0xE0 else b - 0xF0
    else CodePoint(bytes, n - 1) * 64 + bytes[n - 1] - 0x80
  }

  /** A reader of UTF-8. */
  function Decoded(bytes: seq<Byte>): Option<seq<int>> {
    if bytes == [] then Some([])
    else
      var n := Announced(bytes[0]);
      if n > |bytes| then None
      else
        var rest := Decoded(bytes[n..]);
        if rest.Some? then Some([CodePoint(bytes, n)] + rest.value) else None
  }

  function CodePoints(s: string): seq<int> {
    seq(|s|, i requires 0 <= i < |s| => s[i] as int)
  }

  lemma SixBits(n: nat)
    ensures n / 0x40000 * 64 + n / 0x1000 % 0x40 == n / 0x1000
    ensures n / 0x1000 * 64 + n / 0x40 % 0x40 == n / 0x40
    ensures n / 0x40 * 64 + n % 0x40 == n
  {
  }

  ghost predicate Spells(bytes: seq<Byte>, n: nat, code: int) {
    1 <= n <= |bytes| && Announced(bytes[0]) == n && CodePoint(bytes, n) == code
  }

  lemma SpellsTwo(n: nat, bytes: seq<Byte>)
    requires 0x80 <= n < 0x800 && [0xC0 + n / 0x40, 0x80 + n % 0x40] <= bytes
    ensures Spells(bytes, 2, n)
  {
    SixBits(n);
    assert CodePoint(bytes, 1) == n / 0x40;
  }

  lemma SpellsThree(n: nat, bytes: seq<Byte>)
    requires 0x800 <= n < 0x10000 && [0xE0 + n / 0x1000, 0x80 + n / 0x40 % 0x40, 0x80 + n % 0x40] <= bytes
    ensures Spells(bytes, 3, n)
  {
    SixBits(n);
    assert CodePoint(bytes, 1) == n / 0x1000;
    assert CodePoint(bytes, 2) == n / 0x40;
  }

  lemma SpellsFour(n: nat, bytes: seq<Byte>)
    requires 0x10000 <= n < 0x110000
    requires [0xF0 + n / 0x40000, 0x80 + n / 0x1000 % 0x40, 0x80 + n / 0x40 % 0x40, 0x80 + n % 0x40] <= bytes
    ensures Spells(bytes, 4, n)
  {
    SixBits(n);
    assert CodePoint(bytes, 1) == n / 0x40000;
    assert CodePoint(bytes, 2) == n / 0x1000;
    assert CodePoint(bytes, 3) == n / 0x40;
  }

  lemma CharReadsBack(c: char, rest: seq<Byte>)
    ensures var bytes, n := Utf8Char(c) + rest, |Utf8Char(c)|; Spells(bytes, n, c as int) && bytes[n..] == rest
  {
    var n, bytes := c as nat, Utf8Char(c) + rest;
    assert bytes[|Utf8Char(c)|..] == rest && Utf8Char(c) <= bytes;
    if n >= 0x10000 {
      SpellsFour(n, bytes);
    } else if n >= 0x800 {
      SpellsThree(n, bytes);
    } else if n >= 0x80 {
      SpellsTwo(n, bytes);
    } else {
      assert bytes[0] == n && CodePoint(bytes, 1) == n;
    }
  }

  /** The bytes that are hashed read back as the row id. */
  lemma {:induction false} Utf8ReadsBack(s: string)
    ensures Decoded(Utf8(s)) == Some(CodePoints(s))
  {
    if s != [] {
      var bytes, n := Utf8(s), |Utf8Char(s[0])|;
      CharReadsBack(s[0], Utf8(s[1..]));
      Utf8ReadsBack(s[1..]);
      assert Spells(bytes, n, s[0] as int) && bytes[n..] == Utf8(s[1..]);
      assert Decoded(bytes) == Some([s[0] as int] + CodePoints(s[1..]));
      assert CodePoints(s) == [s[0] as int] + CodePoints(s[1..]);
    } else {
      assert CodePoints(s) == [];
    }
  }

  lemma FnvSnoc(bytes: seq<Byte>, b: Byte, before: nat, mixed: nat)
    requires FnvFold(bytes) == before && XorLow(before, b) == mixed
    ensures FnvFold(bytes + [b]) == WrappingMul(mixed, FNV_PRIME)
  {
    assert (bytes + [b])[..|bytes|] == bytes;
  }

  lemma SampleBytes()
    ensures Utf8("a") == [] + [0x61] && Utf8("fo") == [] + [0x66] + [0x6f]
  {
    assert "a"[1..] == "" && "fo"[1..] == "o" && "o"[1..] == "";
  }

  lemma SampleXors()
    ensures Xor(0x25, 0x61, 8) == 0x44 && Xor(0x25, 0x66, 8) == 0x43 && Xor(0xd9, 0x6f, 8) == 0xb6
  {
    assert Xor(0x2, 0x6, 4) == 0x4 && Xor(0xd, 0x6, 4) == 0xb;
  }

  lemma SampleProducts()
    ensures 0xcbf29ce484222344 * FNV_PRIME % TWO_64 == 0xaf63dc4c8601ec8c
    ensures 0xcbf29ce484222343 * FNV_PRIME % TWO_64 == 0xaf63db4c8601ead9
    ensures 0xaf63db4c8601eab6 * FNV_PRIME % TWO_64 == 0x08985907b541d342
  {
  }

  lemma Mixes(hash: nat, high: nat, low: Byte, b: Byte, mixed: nat)
    requires hash == high * 256 + low && Xor(low, b, 8) == mixed
    ensures XorLow(hash, b) == high * 256 + mixed
  {
    assert hash / 256 == high && hash % 256 == low;
  }

  lemma SampleMixes()
    ensures XorLow(0xcbf29ce484222325, 0x61) == 0xcbf29ce484222344
    ensures XorLow(0xcbf29ce484222325, 0x66) == 0xcbf29ce484222343
    ensures XorLow(0xaf63db4c8601ead9, 0x6f) == 0xaf63db4c8601eab6
  {
    SampleXors();
    Mixes(0xcbf29ce484222325, 0xcbf29ce4842223, 0x25, 0x61, 0x44);
    Mixes(0xcbf29ce484222325, 0xcbf29ce4842223, 0x25, 0x66, 0x43);
    Mixes(0xaf63db4c8601ead9, 0xaf63db4c8601ea, 0xd9, 0x6f, 0xb6);
  }

  /** Two published values of the 64-bit FNV-1a hash. */
  lemma FnvVectors()
    ensures FnvFold(Utf8("a")) == 0xaf63dc4c8601ec8c
    ensures FnvFold(Utf8("fo")) == 0x08985907b541d342
  {
    SampleBytes();
    SampleMixes();
    SampleProducts();
    FnvSnoc([], 0x61, 0xcbf29ce484222325, 0xcbf29ce484222344);
    FnvSnoc([], 0x66, 0xcbf29ce484222325, 0xcbf29ce484222343);
    FnvSnoc([] + [0x66], 0x6f, 0xaf63db4c8601ead9, 0xaf63db4c8601eab6);
  }

  /** The first already-recorded owner that is still on the roster. */
  function FirstActive(existing: seq<string>, roster: seq<string>): Option<string> {
    if existing == [] then None
    else if existing[0] in roster then Some(existing[0])
    else FirstActive(existing[1..], roster)
  }

  /** The single node that owns a row: a recorded owner still on the roster,
      else the node the row id hashes to in the sorted roster. */
  function SelectOwner(rowId: string, roster: seq<string>, existing: seq<string>): (r: Option<string>)
    ensures r == None <==> roster == []
    ensures r.Some? ==> r.value in roster
  {
    FirstActiveOnRoster(existing, roster);
    SortSorts(roster);
    match FirstActive(existing, roster)
    case Some(owner) => Some(owner)
    case None =>
      if roster == [] then None
      else
        var npubs := Sort(roster);
        var index := FnvFold(Utf8(rowId)) % |npubs|;
        assert npubs[index] in multiset(roster);
        Some(npubs[index])
  }

  lemma {:induction false} FirstActiveOnRoster(existing: seq<string>, roster: seq<string>)
    ensures FirstActive(existing, roster) == None <==> forall e | e in existing :: e !in roster
    ensures FirstActive(existing, roster).Some? ==>
              FirstActive(existing, roster).value in existing && FirstActive(existing, roster).value in roster
  {
    if existing != [] {
      FirstActiveOnRoster(existing[1..], roster);
      assert existing == [existing[0]] + existing[1..];
    }
  }

  /** The owner chosen for a row with recorded owners is the first of them that is on the roster. */
  lemma {:induction false} FirstRecordedWins(rowId: string, roster: seq<string>, existing: seq<string>, i: nat)
    requires i < |existing| && existing[i] in roster && forall j | 0 <= j < i :: existing[j] !in roster
    ensures SelectOwner(rowId, roster, existing) == Some(existing[i])
  {
    if i > 0 {
      FirstRecordedWins(rowId, roster, existing[1..], i - 1);
    }
  }

  lemma SameBelow(s: seq<string>, t: seq<string>, x: string)
    requires multiset(s) == multiset(t)
    ensures Below(s, x) == Below(t, x)
  {
    forall p ensures p in s <==> p in t {
      assert p in s <==> p in multiset(s);
      assert p in t <==> p in multiset(t);
    }
  }

  /** Without a recorded owner on the roster, the hash modulo the number of providers is the owner's rank by name. */
  lemma HashIsRank(rowId: string, roster: seq<string>, existing: seq<string>)
    requires roster != [] && (forall p :: multiset(roster)[p] <= 1) && forall e | e in existing :: e !in roster
    ensures var owner := SelectOwner(rowId, roster, existing).value;
      |Below(roster, owner)| == FnvFold(Utf8(rowId)) % |roster|
  {
    FirstActiveOnRoster(existing, roster);
    SortSorts(roster);
    var npubs, index := Sort(roster), FnvFold(Utf8(rowId)) % |roster|;
    Rank(npubs, index);
    SameBelow(roster, npubs, npubs[index]);
  }

  /** A row with a live owner keeps it, whatever the rest of the roster looks like. */
  lemma SelectOwnerSticky(rowId: string, roster: seq<string>, owner: string)
    requires owner in roster
    ensures SelectOwner(rowId, roster, [owner]) == Some(owner)
  {
    FirstActiveOnRoster([owner], roster);
  }

  lemma {:induction false} FirstActiveOrderFree(existing: seq<string>, roster: seq<string>, other: seq<string>)
    requires multiset(roster) == multiset(other)
    ensures FirstActive(existing, roster) == FirstActive(existing, other)
  {
    if existing != [] {
      assert existing[0] in roster <==> existing[0] in multiset(roster);
      assert existing[0] in other <==> existing[0] in multiset(other);
      FirstActiveOrderFree(existing[1..], roster, other);
    }
  }

  /** The choice does not depend on the order in which the roster was polled. */
  lemma SelectOwnerOrderFree(rowId: string, roster: seq<string>, other: seq<string>, existing: seq<string>)
    requires multiset(roster) == multiset(other)
    ensures SelectOwner(rowId, roster, existing) == SelectOwner(rowId, other, existing)
  {
    FirstActiveOrderFree(existing, roster, other);
    SortOrderFree(roster, other);
    assert |multiset(roster)| == |multiset(other)|;
  }
}
