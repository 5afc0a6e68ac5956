/** The text form of Merkle nodes that is hashed, and why it can be read back in one way only. */
module NodeText {
  import opened Bytes

  datatype Node = Node(hash: Hash, size: nat)

  const SPACE: byte := 32
  const COLON: byte := 58
  const NEWLINE: byte := 10

  function HexDigit(d: nat): byte
    requires d < 16
  {
    if d < 10 then 48 + d else 87 + d
  }

  function Hex(b: Bytes): (t: Bytes)
    ensures |t| == 2 * |b|
  {
    if b == [] then [] else [HexDigit(b[0] / 16), HexDigit(b[0] % 16)] + Hex(b[1..])
  }

  function Decimal(n: nat): (t: Bytes)
    ensures t != []
  {
    if n < 10 then [48 + n] else Decimal(n / 10) + [48 + n % 10]
  }

  /** "{hash} : {size}" and a line end. */
  function NodeLine(n: Node): Bytes {
    Hex(n.hash) + ([SPACE, COLON, SPACE] + (Decimal(n.size) + [NEWLINE]))
  }

  function GroupText(nodes: seq<Node>): Bytes {
    if nodes == [] then [] else NodeLine(nodes[0]) + GroupText(nodes[1..])
  }

  lemma GroupTextSnoc(nodes: seq<Node>, n: Node)
    ensures GroupText(nodes + [n]) == GroupText(nodes) + NodeLine(n)
  {
    if nodes == [] {
      assert GroupText([n]) == NodeLine(n) + GroupText([]);
    } else {
      GroupTextSnoc(nodes[1..], n);
      assert (nodes + [n])[1..] == nodes[1..] + [n];
      Assoc(NodeLine(nodes[0]), GroupText(nodes[1..]), NodeLine(n));
    }
  }

  /** Equal concatenations with first parts of equal length have equal parts. */
  lemma SamePrefix<T>(a: seq<T>, s: seq<T>, b: seq<T>, t: seq<T>)
    requires a + s == b + t && |a| == |b|
    ensures a == b && s == t
  {
    SplitConcat(a, s);
    SplitConcat(b, t);
  }

  lemma {:induction false} HexInjective(a: Bytes, b: Bytes)
    requires Hex(a) == Hex(b)
    ensures a == b
  {
    if a != [] && b != [] {
      SamePrefix([HexDigit(a[0] / 16), HexDigit(a[0] % 16)], Hex(a[1..]),
                 [HexDigit(b[0] / 16), HexDigit(b[0] % 16)], Hex(b[1..]));
      assert HexDigit(a[0] / 16) == HexDigit(b[0] / 16);
      HexInjective(a[1..], b[1..]);
      assert a == [a[0]] + a[1..] && b == [b[0]] + b[1..];
    }
  }

  /** The value of a hexadecimal digit in lower case. */
  function DigitValue(c: byte): Option<nat> {
    if 48 <= c <= 57 then Some(c - 48) else if 97 <= c <= 102 then Some(c - 87) else None
  }

  /** Byte `i` is read back from characters `2 * i` and `2 * i + 1`, the high digit first. */
  lemma {:induction false} HexReads(b: Bytes, i: nat)
    requires i < |b|
    ensures var high, low := DigitValue(Hex(b)[2 * i]), DigitValue(Hex(b)[2 * i + 1]);
            high.Some? && low.Some? && 16 * high.value + low.value == b[i]
  {
    if i > 0 {
      HexReads(b[1..], i - 1);
    }
  }

  function ReadDecimal(t: Bytes): int {
    if t == [] then 0 else 10 * ReadDecimal(t[..|t| - 1]) + (t[|t| - 1] as int - 48)
  }

  /** The size is read back from its digits, of which the first is no superfluous zero. */
  lemma {:induction false} DecimalReads(n: nat)
    ensures ReadDecimal(Decimal(n)) == n
    ensures forall i | 0 <= i < |Decimal(n)| :: 48 <= Decimal(n)[i] <= 57
    ensures n > 0 ==> Decimal(n)[0] != 48
  {
    if n >= 10 {
      DecimalReads(n / 10);
      assert Decimal(n)[..|Decimal(n)| - 1] == Decimal(n / 10);
    } else {
      assert ReadDecimal([48 + n]) == 10 * ReadDecimal([]) + n;
    }
  }

  /** A line is 64 hexadecimal characters, " : ", the decimal size and a line end. */
  lemma NodeLineReads(n: Node, i: nat)
    requires i < 32
    ensures var line := NodeLine(n);
            var high, low := DigitValue(line[2 * i]), DigitValue(line[2 * i + 1]);
            && 68 < |line|
            && high.Some? && low.Some? && 16 * high.value + low.value == n.hash[i]
            && line[64..67] == [32, 58, 32]
            && ReadDecimal(line[67..|line| - 1]) == n.size
            && line[|line| - 1] == 10
  {
    var hex, dec := Hex(n.hash), Decimal(n.size);
    var line := NodeLine(n);
    HexReads(n.hash, i);
    DecimalReads(n.size);
    assert line[2 * i] == hex[2 * i] && line[2 * i + 1] == hex[2 * i + 1];
    assert line[67..|line| - 1] == dec;
  }

  lemma {:induction false} DecimalDigits(n: nat, i: nat)
    requires i < |Decimal(n)|
    ensures Decimal(n)[i] != NEWLINE
  {
    if n >= 10 && i < |Decimal(n)| - 1 {
      DecimalDigits(n / 10, i);
    }
  }

  lemma {:induction false} DecimalInjective(m: nat, n: nat)
    requires Decimal(m) == Decimal(n)
    ensures m == n
  {
    if m >= 10 && n >= 10 {
      var a, b := Decimal(m / 10), Decimal(n / 10);
      assert |Decimal(m)| == |a| + 1 && |Decimal(n)| == |b| + 1;
      SamePrefix(a, [48 + m % 10], b, [48 + n % 10]);
      assert [48 + m % 10][0] == [48 + n % 10][0];
      DecimalInjective(m / 10, n / 10);
    } else {
      assert |Decimal(m)| == |Decimal(n)|;
      assert Decimal(m)[0] == Decimal(n)[0];
    }
  }

  /** Digits continue up to the line end. */
  lemma DigitInLine(n: nat, t: Bytes, i: nat)
    requires i < |Decimal(n)|
    ensures ((Decimal(n) + [NEWLINE]) + t)[i] != NEWLINE
  {
    DecimalDigits(n, i);
  }

  /** The line end is where the digits stop, so it fixes the number of digits. */
  lemma DecimalLine(m: nat, s: Bytes, n: nat, t: Bytes)
    requires (Decimal(m) + [NEWLINE]) + s == (Decimal(n) + [NEWLINE]) + t
    ensures m == n && s == t
  {
    assert ((Decimal(m) + [NEWLINE]) + s)[|Decimal(m)|] == NEWLINE;
    assert ((Decimal(n) + [NEWLINE]) + t)[|Decimal(n)|] == NEWLINE;
    if |Decimal(m)| < |Decimal(n)| {
      DigitInLine(n, t, |Decimal(m)|);
    } else if |Decimal(n)| < |Decimal(m)| {
      DigitInLine(m, s, |Decimal(n)|);
    } else {
      SamePrefix(Decimal(m) + [NEWLINE], s, Decimal(n) + [NEWLINE], t);
      SamePrefix(Decimal(m), [NEWLINE], Decimal(n), [NEWLINE]);
      DecimalInjective(m, n);
    }
  }

  lemma NodeLineInjective(m: Node, s: Bytes, n: Node, t: Bytes)
    requires NodeLine(m) + s == NodeLine(n) + t
    ensures m == n && s == t
  {
    var sep := [SPACE, COLON, SPACE];
    var dm, dn := Decimal(m.size) + [NEWLINE], Decimal(n.size) + [NEWLINE];
    Assoc(Hex(m.hash), sep + dm, s);
    Assoc(Hex(n.hash), sep + dn, t);
    SamePrefix(Hex(m.hash), (sep + dm) + s, Hex(n.hash), (sep + dn) + t);
    HexInjective(m.hash, n.hash);
    Assoc(sep, dm, s);
    Assoc(sep, dn, t);
    SamePrefix(sep, dm + s, sep, dn + t);
    DecimalLine(m.size, s, n.size, t);
  }

  /** Two groups with the same text are the same group: same hashes, same sizes, same order. */
  lemma {:induction false} GroupTextInjective(a: seq<Node>, b: seq<Node>)
    requires GroupText(a) == GroupText(b)
    ensures a == b
  {
    if a != [] && b != [] {
      NodeLineInjective(a[0], GroupText(a[1..]), b[0], GroupText(b[1..]));
      GroupTextInjective(a[1..], b[1..]);
      assert a == [a[0]] + a[1..] && b == [b[0]] + b[1..];
    }
  }
}
