/** Answer values as the API sees them after decoding, and the bucket-key
    encoding `toKey` of form-builder/apps/api/main.go. */
module Values {
  import opened Wrappers

  /** A decoded answer value. JSON and BSON numbers are modelled as integers.
      `Other` stands for every remaining kind of value (booleans, null,
      objects); `ext` is the extended-JSON text the BSON library renders for
      it, which the model takes as given. */
  datatype Value =
    | Str(s: string)
    | Int(n: int)
    | Arr(items: seq<Value>)
    | Other(ext: string)

  /** The separator `toKey` puts between the keys of an array's elements. */
  const Separator: char := '|'

  // ---------------------------------------------------------------------
  // Decimal form of integers (`fmt.Sprint` on int, int32, int64)
  // ---------------------------------------------------------------------

  function DigitChar(d: nat): (c: char)
    requires d < 10
    ensures '0' <= c <= '9'
  {
    ('0' as int + d) as char
  }

  function DigitValue(c: char): nat
    requires '0' <= c <= '9'
  {
    c as int - '0' as int
  }

  predicate IsDigits(s: string) {
    |s| > 0 && forall i :: 0 <= i < |s| ==> '0' <= s[i] <= '9'
  }

  /** Decimal digits of `n`, most significant first. Only zero itself is
      written with a leading '0'. */
  function Digits(n: nat): (r: string)
    ensures IsDigits(r)
    ensures r[0] == '0' <==> n == 0
    decreases n
  {
    if n < 10 then [DigitChar(n)] else Digits(n / 10) + [DigitChar(n % 10)]
  }

  /** The number a string of decimal digits denotes. */
  function DigitsValue(s: string): nat
    requires forall i :: 0 <= i < |s| ==> '0' <= s[i] <= '9'
  {
    if s == [] then 0 else DigitsValue(s[..|s| - 1]) * 10 + DigitValue(s[|s| - 1])
  }

  /** The decimal form of an integer: a minus sign for negative numbers,
      then the digits of its magnitude. */
  function Decimal(n: int): (r: string)
    ensures |r| > 0 && Separator !in r
  {
    if n < 0 then "-" + Digits(-n) else Digits(n)
  }

  /** Reads an optional minus sign followed by decimal digits. */
  function ParseDecimal(s: string): Option<int> {
    if |s| > 0 && s[0] == '-' && IsDigits(s[1..]) then Some(0 - DigitsValue(s[1..]))
    else if IsDigits(s) then Some(DigitsValue(s))
    else None
  }

  lemma {:induction false} DigitsValueOfDigits(n: nat)
    ensures DigitsValue(Digits(n)) == n
    decreases n
  {
    if n >= 10 {
      var r := Digits(n);
      assert r[..|r| - 1] == Digits(n / 10);
      DigitsValueOfDigits(n / 10);
    }
  }

  /** `ParseDecimal` reads back what `Decimal` writes. */
  lemma DecimalRoundTrip(n: int)
    ensures ParseDecimal(Decimal(n)) == Some(n)
  {
    if n < 0 {
      assert Decimal(n)[1..] == Digits(-n);
      DigitsValueOfDigits(-n);
    } else {
      DigitsValueOfDigits(n);
    }
  }

  /** Distinct integers get distinct decimal forms. */
  lemma DecimalInjective(a: int, b: int)
    ensures Decimal(a) == Decimal(b) ==> a == b
  {
    DecimalRoundTrip(a);
    DecimalRoundTrip(b);
  }

  // ---------------------------------------------------------------------
  // Joining and splitting on the separator (`strings.Join`, `strings.Split`)
  // ---------------------------------------------------------------------

  /** The parts in order with one separator between neighbours; no parts
      give the empty string. */
  function Join(parts: seq<string>): string {
    if |parts| == 0 then ""
    else if |parts| == 1 then parts[0]
    else parts[0] + [Separator] + Join(parts[1..])
  }

  /** The pieces of `s` between separators, in order; always at least one. */
  function Split(s: string): (pieces: seq<string>)
    ensures |pieces| > 0
  {
    if s == [] then [""]
    else
      var rest := Split(s[1..]);
      if s[0] == Separator then [""] + rest else [[s[0]] + rest[0]] + rest[1..]
  }

  lemma {:induction false} SplitAfterPlainPrefix(p: string, s: string)
    requires Separator !in p
    ensures Split(p + s) == [p + Split(s)[0]] + Split(s)[1..]
  {
    if p == [] {
      var pieces := Split(s);
      assert p + s == s && p + pieces[0] == pieces[0];
      assert [pieces[0]] + pieces[1..] == pieces;
    } else {
      assert (p + s)[1..] == p[1..] + s;
      SplitAfterPlainPrefix(p[1..], s);
      assert [p[0]] + (p[1..] + Split(s)[0]) == p + Split(s)[0];
    }
  }

  /** Splitting undoes joining when there is at least one part and no part
      contains the separator. */
  lemma {:induction false} SplitJoin(parts: seq<string>)
    requires |parts| > 0
    requires forall i :: 0 <= i < |parts| ==> Separator !in parts[i]
    ensures Split(Join(parts)) == parts
  {
    if |parts| == 1 {
      SplitAfterPlainPrefix(parts[0], "");
      assert parts[0] + "" == parts[0];
    } else {
      var tail := Join(parts[1..]);
      SplitJoin(parts[1..]);
      assert Join(parts) == parts[0] + ([Separator] + tail);
      SplitAfterPlainPrefix(parts[0], [Separator] + tail);
      assert ([Separator] + tail)[1..] == tail;
      assert parts[0] + "" == parts[0];
      assert [parts[0]] + parts[1..] == parts;
    }
  }

  // ---------------------------------------------------------------------
  // Bucket keys
  // ---------------------------------------------------------------------

  /** `toKey`: a string is its own key, an integer its decimal form, an
      array the keys of its elements joined by the separator, and any other
      value its extended-JSON text. */
  function ToKey(v: Value): string
    decreases v, 1
  {
    match v
    case Str(s) => s
    case Int(n) => Decimal(n)
    case Arr(items) => Join(ElementKeys(items))
    case Other(ext) => ext
  }

  /** The `parts` that `toKey` collects for an array: one key per element,
      in order. */
  function ElementKeys(items: seq<Value>): (keys: seq<string>)
    ensures |keys| == |items|
    ensures forall i :: 0 <= i < |items| ==> keys[i] == ToKey(items[i])
    decreases items, 0
  {
    if items == [] then [] else ElementKeys(items[..|items| - 1]) + [ToKey(items[|items| - 1])]
  }

  /** A string answer is its own bucket key, unchanged. */
  lemma StringKeyIsIdentity(s: string)
    ensures ToKey(Str(s)) == s
  {
  }

  /** An integer's key is its decimal form, and reading that form back
      gives the integer: distinct integers never share a key. */
  lemma IntKeyRoundTrip(n: int)
    ensures ParseDecimal(ToKey(Int(n))) == Some(n)
    ensures Separator !in ToKey(Int(n))
  {
    DecimalRoundTrip(n);
  }

  /** An array's key lists its elements' keys in order: splitting it on the
      separator gives them back when there is at least one element and no
      element key contains the separator. An empty array gives "". */
  lemma {:induction false} ArrayKeyRoundTrip(items: seq<Value>)
    requires forall i :: 0 <= i < |items| ==> Separator !in ToKey(items[i])
    ensures items == [] ==> ToKey(Arr(items)) == ""
    ensures items != [] ==> Split(ToKey(Arr(items))) == ElementKeys(items)
  {
    if items != [] {
      SplitJoin(ElementKeys(items));
    }
  }

  /** Distinct values can share a key: the empty array and the empty
      string, and an array of strings and the string joining them. */
  lemma KeyCollisions()
    ensures ToKey(Arr([])) == ToKey(Str(""))
    ensures ToKey(Arr([Str("a"), Str("b")])) == ToKey(Str("a|b"))
  {
    var ab := [Str("a"), Str("b")];
    assert ElementKeys(ab) == ["a", "b"];
  }
}
