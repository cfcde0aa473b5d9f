/**
 * The XML reader's view of a report, as the parsers use it: a tree of
 * elements, each with a name, a map from attribute name to text and an
 * ordered list of children, plus character-data nodes. Reading bytes into
 * this tree is outside the model: a document either failed to load or is
 * given as its document node.
 */
module Xml {

  datatype Node =
    | Element(name: string, attrs: map<string, string>, children: seq<Node>)
    | Text(text: string)
  {
    /** `node.attribute(key)` converts to true: the attribute is present. */
    predicate Has(key: string) {
      Element? && key in attrs
    }

    /** `node.attribute(key).value()`: a missing attribute reads as "". */
    function Attr(key: string): (v: string)
      ensures Has(key) ==> v == attrs[key]
      ensures !Has(key) ==> v == ""
    {
      if Has(key) then attrs[key] else ""
    }

    /** `node.attribute(key).as_uint()`: a missing attribute reads as 0. */
    function Uint(key: string): (n: nat)
      ensures !Has(key) ==> n == 0
    {
      ReadUint(Attr(key))
    }

    /** `node.attribute(key).as_int()`: a missing attribute reads as 0. */
    function Int(key: string): (n: int)
      ensures !Has(key) ==> n == 0
    {
      ReadInt(Attr(key))
    }

    /** The element test behind `child(tag)` and `next_sibling(tag)`. */
    predicate IsNamed(tag: string) {
      Element? && name == tag
    }

    /** All children in document order (a character-data node has none). */
    function Kids(): seq<Node> {
      if Element? then children else []
    }

    /** `node.value()`: the text of a character-data node, "" for an element. */
    function Value(): string {
      if Text? then text else ""
    }

    /** `node.first_child().value()`; "" when there is no child. */
    function FirstChildValue(): string {
      if |Kids()| > 0 then Kids()[0].Value() else ""
    }

    /** The chain `child(tag)`, `next_sibling(tag)`, ... as a sequence. */
    function ChildrenNamed(tag: string): seq<Node> {
      Named(Kids(), tag)
    }

    /** `node.child(tag)` converts to true: some child has that name. */
    predicate HasChild(tag: string) {
      |ChildrenNamed(tag)| > 0
    }

    /** `node.child(tag)`: the first child with that name, or the null node. */
    function Child(tag: string): (c: Node)
      ensures HasChild(tag) ==> c.IsNamed(tag) && c == ChildrenNamed(tag)[0]
      ensures !HasChild(tag) ==> c == Null
    {
      if HasChild(tag) then ChildrenNamed(tag)[0] else Null
    }
  }

  /** pugixml's null node: every attribute and child lookup on it comes back empty. */
  const Null: Node := Element("", map[], [])

  /** The outcome of loading a file: a parse failure, or the document node. */
  datatype LoadResult = LoadFailed | Loaded(document: Node)

  /** The elements of `s` named `tag`, in order. */
  function Named(s: seq<Node>, tag: string): (r: seq<Node>)
    ensures |r| <= |s|
    ensures forall i :: 0 <= i < |r| ==> r[i].IsNamed(tag)
  {
    if s == [] then []
    else Named(s[..|s| - 1], tag) + (if s[|s| - 1].IsNamed(tag) then [s[|s| - 1]] else [])
  }

  /** One more sibling visited by the chain: the step every sibling loop takes. */
  lemma NamedStep(s: seq<Node>, j: nat, tag: string)
    requires j < |s|
    ensures s[j].IsNamed(tag) ==> Named(s[..j + 1], tag) == Named(s[..j], tag) + [s[j]]
    ensures !s[j].IsNamed(tag) ==> Named(s[..j + 1], tag) == Named(s[..j], tag)
  {
    assert s[..j + 1][..j] == s[..j];
    if !s[j].IsNamed(tag) {
      assert Named(s[..j], tag) + [] == Named(s[..j], tag);
    }
  }

  /** Filtering distributes over concatenation, so it keeps document order. */
  lemma {:induction false} NamedConcat(a: seq<Node>, b: seq<Node>, tag: string)
    ensures Named(a + b, tag) == Named(a, tag) + Named(b, tag)
    decreases |b|
  {
    if b == [] {
      assert a + b == a;
    } else {
      var b' := b[..|b| - 1];
      var x := b[|b| - 1];
      assert (a + b)[..|a + b| - 1] == a + b';
      assert b[..|b| - 1] == b';
      NamedConcat(a, b', tag);
    }
  }

  /** A node is kept exactly when it is a child with the right name. */
  lemma {:induction false} NamedMembers(s: seq<Node>, tag: string, x: Node)
    ensures x in Named(s, tag) <==> x in s && x.IsNamed(tag)
    decreases |s|
  {
    if s != [] {
      var s' := s[..|s| - 1];
      assert s == s' + [s[|s| - 1]];
      NamedMembers(s', tag, x);
    }
  }

  /** Decimal digits. */
  predicate IsDigit(c: char) {
    '0' <= c <= '9'
  }

  function DigitValue(c: char): nat {
    if IsDigit(c) then c as int - '0' as int else 0
  }

  /** The leading decimal digits of `s` read onto `acc`, most significant
      first; reading stops at the first non-digit. */
  function DigitsFrom(s: string, acc: nat): nat
    decreases |s|
  {
    if s == [] || !IsDigit(s[0]) then acc else DigitsFrom(s[1..], acc * 10 + DigitValue(s[0]))
  }

  /** The value of the leading unsigned numeral of `s`; 0 when there is none. */
  function Numeral(s: string): nat {
    DigitsFrom(s, 0)
  }

  /** `as_int` on a decimal numeral with an optional sign: the value is
      negative only after a leading minus, and never positive after one. */
  function ReadInt(s: string): (r: int)
    ensures r < 0 ==> |s| > 0 && s[0] == '-'
    ensures |s| > 0 && s[0] == '-' ==> r <= 0
  {
    if |s| > 0 && s[0] == '-' then 0 - Numeral(s[1..])
    else if |s| > 0 && s[0] == '+' then Numeral(s[1..])
    else Numeral(s)
  }

  /** `as_uint`: like `as_int`, but a negative numeral reads as 0. */
  function ReadUint(s: string): (n: nat)
    ensures ReadInt(s) >= 0 ==> n == ReadInt(s)
    ensures ReadInt(s) < 0 ==> n == 0
  {
    if |s| > 0 && s[0] == '-' then 0
    else if |s| > 0 && s[0] == '+' then Numeral(s[1..])
    else Numeral(s)
  }

  /** The canonical decimal rendering of `n`, the inverse partner of the readers. */
  function Decimal(n: nat): (s: string)
    ensures |s| > 0
    ensures forall i :: 0 <= i < |s| ==> IsDigit(s[i])
  {
    if n < 10 then [Digit(n)] else Decimal(n / 10) + [Digit(n % 10)]
  }

  function Digit(d: nat): (c: char)
    requires d < 10
    ensures IsDigit(c) && DigitValue(c) == d
  {
    ('0' as int + d) as char
  }

  /** Reading a run of digits and then the rest is reading the whole. */
  lemma {:induction false} DigitsFromConcat(s: string, t: string, acc: nat)
    requires forall i :: 0 <= i < |s| ==> IsDigit(s[i])
    ensures DigitsFrom(s + t, acc) == DigitsFrom(t, DigitsFrom(s, acc))
    decreases |s|
  {
    if s == [] {
      assert s + t == t;
    } else {
      assert (s + t)[0] == s[0] && (s + t)[1..] == s[1..] + t;
      DigitsFromConcat(s[1..], t, acc * 10 + DigitValue(s[0]));
    }
  }

  lemma {:induction false} DecimalValue(n: nat)
    ensures Numeral(Decimal(n)) == n
    decreases n
  {
    if n >= 10 {
      var d := [Digit(n % 10)];
      DecimalValue(n / 10);
      DigitsFromConcat(Decimal(n / 10), d, 0);
      assert d[1..] == [];
    } else {
      var s := [Digit(n)];
      assert Decimal(n) == s && IsDigit(s[0]) && DigitValue(s[0]) == n;
      assert s[1..] == [];
      assert DigitsFrom(s, 0) == DigitsFrom([], n);
    }
  }

  /** Reading back a rendered count gives the count, signed or not. */
  lemma ReadDecimal(n: nat)
    ensures ReadUint(Decimal(n)) == n
    ensures ReadInt(Decimal(n)) == n
    ensures ReadInt("-" + Decimal(n)) == 0 - n as int
  {
    var s := Decimal(n);
    DecimalValue(n);
    assert IsDigit(s[0]);
    assert ("-" + s)[0] == '-' && ("-" + s)[1..] == s;
  }
}
