/** String and number literals as RFC 8259 defines them, against the functions that read and write them. */
module JsonLaws {
  import opened Text
  import opened JsonString
  import opened TextLaws

  // ----- Numbers (section 6) -----

  predicate Digits(s: string) {
    forall i :: 0 <= i < |s| ==> '0' <= s[i] <= '9'
  }

  /** No digit but a single zero, or digits that do not start with one. */
  predicate IsInteger(s: string) {
    s != "" && Digits(s) && (s[0] == '0' ==> s == "0")
  }

  predicate IsFractionPart(s: string) {
    s == "" || (|s| > 1 && s[0] == '.' && Digits(s[1..]))
  }

  predicate IsExponentPart(s: string) {
    s == "" || (|s| > 1 && (s[0] == 'e' || s[0] == 'E')
                && (Digits(s[1..]) || (|s| > 2 && (s[1] == '+' || s[1] == '-') && Digits(s[2..]))))
  }

  ghost predicate IsLiteral(s: string) {
    exists minus, integer, fraction, exponent :: NumberParts(s, minus, integer, fraction, exponent)
  }

  ghost predicate NumberParts(s: string, minus: string, integer: string, fraction: string, exponent: string) {
    && s == minus + (integer + (fraction + exponent))
    && (minus == "" || minus == "-") && IsInteger(integer) && IsFractionPart(fraction) && IsExponentPart(exponent)
  }

  lemma {:induction false} SkipsDigits(digits: string, rest: string)
    requires Digits(digits) && (rest == "" || !IsDigit(rest[0]))
    ensures SkipDigits(digits + rest) == rest
  {
    if digits == "" {
      assert digits + rest == rest;
    } else {
      assert (digits + rest)[1..] == digits[1..] + rest;
      SkipsDigits(digits[1..], rest);
    }
  }

  lemma {:induction false} SkippedDigits(s: string) returns (digits: string)
    ensures s == digits + SkipDigits(s) && Digits(digits)
    ensures SkipDigits(s) == "" || !IsDigit(SkipDigits(s)[0])
    ensures digits != "" <==> s != "" && IsDigit(s[0])
  {
    if |s| > 0 && IsDigit(s[0]) {
      var more := SkippedDigits(s[1..]);
      digits := [s[0]] + more;
      assert s == [s[0]] + s[1..];
      Regroup3([s[0]], more, SkipDigits(s[1..]));
    } else {
      digits := "";
    }
  }

  lemma {:induction false} ExponentIsPart(s: string)
    ensures IsExponent(s) <==> IsExponentPart(s)
  {
    if s != "" && (s[0] == 'e' || s[0] == 'E') {
      var signed := |s| > 1 && (s[1] == '+' || s[1] == '-');
      var digits := if signed then s[2..] else s[1..];
      var head := SkippedDigits(digits);
      if Digits(digits) {
        assert digits + "" == digits;
        SkipsDigits(digits, "");
      }
    }
  }

  lemma {:induction false} FractionHasParts(s: string) returns (fraction: string, exponent: string)
    requires IsFraction(s)
    ensures s == fraction + exponent && IsFractionPart(fraction) && IsExponentPart(exponent)
  {
    if s != "" && s[0] == '.' {
      var digits := SkippedDigits(s[1..]);
      exponent := SkipDigits(s[1..]);
      fraction := "." + digits;
      ExponentIsPart(exponent);
      assert s == "." + s[1..];
      if digits == "" {
        EmptyConcat(digits, exponent);
      }
      assert fraction[1..] == digits;
      Regroup3(".", digits, exponent);
    } else {
      fraction, exponent := "", s;
      ExponentIsPart(s);
      EmptyConcat(fraction, exponent);
    }
  }

  lemma {:induction false} PartsAreFraction(fraction: string, exponent: string)
    requires IsFractionPart(fraction) && IsExponentPart(exponent)
    ensures IsFraction(fraction + exponent)
    ensures fraction + exponent == "" || !IsDigit((fraction + exponent)[0])
  {
    ExponentIsPart(exponent);
    if fraction == "" {
      EmptyConcat(fraction, exponent);
    } else {
      var s := fraction + exponent;
      assert s[1..] == fraction[1..] + exponent;
      SkipsDigits(fraction[1..], exponent);
      assert |s[1..]| > |exponent|;
    }
  }

  lemma {:induction false} PartsAreNumber(s: string, minus: string, integer: string, fraction: string, exponent: string)
    requires NumberParts(s, minus, integer, fraction, exponent)
    ensures IsNumber(s)
  {
    hide IsFraction;
    var rest := fraction + exponent;
    PartsAreFraction(fraction, exponent);
    var t := integer + rest;
    assert integer[0] == t[0] && IsDigit(t[0]);
    assert s == minus + t;
    if minus == "" {
      assert s == t;
    } else {
      assert s[1..] == t;
    }
    if integer[0] == '0' {
      assert t[1..] == rest;
    } else {
      SkipsDigits(integer, rest);
    }
  }

  lemma {:induction false} NumberHasParts(s: string)
    requires IsNumber(s)
    ensures IsLiteral(s)
  {
    hide IsFraction;
    var minus := if s[0] == '-' then "-" else "";
    var t := if s[0] == '-' then s[1..] else s;
    assert s == minus + t;
    if t[0] == '0' {
      var fraction, exponent := FractionHasParts(t[1..]);
      assert t == "0" + t[1..];
      assert NumberParts(s, minus, "0", fraction, exponent);
    } else {
      var integer := SkippedDigits(t);
      var fraction, exponent := FractionHasParts(SkipDigits(t));
      assert integer[0] == t[0];
      assert NumberParts(s, minus, integer, fraction, exponent);
    }
  }

  /** Exactly the number literals of JSON are taken for numbers. */
  lemma {:induction false} NumbersAreLiterals(s: string)
    ensures IsNumber(s) <==> IsLiteral(s)
  {
    hide IsNumber, NumberParts;
    if IsNumber(s) {
      NumberHasParts(s);
    }
    if IsLiteral(s) {
      var minus, integer, fraction, exponent :| NumberParts(s, minus, integer, fraction, exponent);
      PartsAreNumber(s, minus, integer, fraction, exponent);
    }
  }

  /** A number with the white space of JSON around it. */
  ghost predicate IsSpacedNumber(s: string, n: string, front: string, end: string) {
    && s == front + n + end && IsLiteral(n)
    && forall c :: c in front || c in end ==> c in {'\U{20}', '\U{09}', '\U{0A}', '\U{0D}'}
  }

  /** What a text is read as, as a number: the one number literal in it, with nothing but white space around it. */
  lemma {:induction false} SpacedNumbersAreRead(s: string, n: string)
    ensures ParseNumber(s) == Some(n) <==> exists front, end :: IsSpacedNumber(s, n, front, end)
  {
    hide IsNumber, IsLiteral;
    NumbersAreLiterals(n);
    if ParseNumber(s) == Some(n) {
      var front, end := Trimmed(s, IsJsonSpace);
      assert IsSpacedNumber(s, n, front, end);
    }
    if exists front, end :: IsSpacedNumber(s, n, front, end) {
      var front, end :| IsSpacedNumber(s, n, front, end);
      NumberHasNumberChars(n);
      assert IsNumberChar(n[0]) && IsNumberChar(n[|n| - 1]);
      assert forall i :: 0 <= i < |front| ==> front[i] in front;
      assert forall i :: 0 <= i < |end| ==> end[i] in end;
      TrimOf(front, n, end, IsJsonSpace);
    }
  }

  // ----- Strings (section 7) -----

  /** A character as it is, one after a backslash, or the four hexadecimal digits of a UTF-16 unit. */
  datatype Item =
    | Raw(c: char)
    | Short(letter: char)
    | Unit(a: char, b: char, c: char, d: char)

  predicate IsHex(c: char) {
    '0' <= c <= '9' || 'a' <= c <= 'f' || 'A' <= c <= 'F'
  }

  predicate IsItem(item: Item) {
    match item
    case Raw(c) => c >= '\U{20}' && c != '"' && c != '\\'
    case Short(letter) => letter in {'"', '\\', '/', 'b', 'f', 'n', 'r', 't'}
    case Unit(a, b, c, d) => IsHex(a) && IsHex(b) && IsHex(c) && IsHex(d)
  }

  function ItemText(item: Item): string {
    match item
    case Raw(c) => [c]
    case Short(letter) => ['\\', letter]
    case Unit(a, b, c, d) => ['\\', 'u', a, b, c, d]
  }

  function ItemsText(items: seq<Item>): string {
    if |items| == 0 then "" else ItemText(items[0]) + ItemsText(items[1..])
  }

  function HexNumber(c: char): int {
    if c <= '9' then c as int - 48 else if c <= 'F' then c as int - 55 else c as int - 87
  }

  function UnitNumber(item: Item): int
    requires item.Unit?
  {
    4096 * HexNumber(item.a) + 256 * HexNumber(item.b) + 16 * HexNumber(item.c) + HexNumber(item.d)
  }

  function ShortValue(letter: char): char {
    match letter
    case 'b' => '\U{08}'
    case 'f' => '\U{0C}'
    case 'n' => '\U{0A}'
    case 'r' => '\U{0D}'
    case 't' => '\U{09}'
    case _ => letter
  }

  predicate AllItems(items: seq<Item>) {
    forall i :: 0 <= i < |items| ==> IsItem(items[i])
  }

  /** Two units that make a pair, a high one and a low one. */
  predicate IsPair(items: seq<Item>) {
    && |items| > 1 && items[0].Unit? && items[1].Unit?
    && 55296 <= UnitNumber(items[0]) <= 56319 && 56320 <= UnitNumber(items[1]) <= 57343
  }

  lemma {:induction false} UnitIsSmall(item: Item)
    requires item.Unit? && IsItem(item)
    ensures 0 <= UnitNumber(item) < 65536
  {
  }

  /** What the items stand for; a surrogate without its partner stands for the replacement character. */
  function ItemsValue(items: seq<Item>): string
    requires AllItems(items)
  {
    if |items| == 0 then ""
    else if IsPair(items) then
      var n := 65536 + (UnitNumber(items[0]) - 55296) * 1024 + (UnitNumber(items[1]) - 56320);
      [n as char] + ItemsValue(items[2..])
    else
      UnitsAreSmall(items);
      (match items[0]
       case Raw(c) => [c]
       case Short(letter) => [ShortValue(letter)]
       case Unit(_, _, _, _) =>
         var n := UnitNumber(items[0]);
         if 55296 <= n <= 57343 then ['\U{FFFD}'] else [n as char])
      + ItemsValue(items[1..])
  }

  lemma {:induction false} UnitsAreSmall(items: seq<Item>)
    requires AllItems(items) && |items| > 0
    ensures items[0].Unit? ==> 0 <= UnitNumber(items[0]) < 65536
  {
    hide UnitNumber;
    assert IsItem(items[0]);
    if items[0].Unit? {
      UnitIsSmall(items[0]);
    }
  }

  lemma {:induction false} HexIsNumber(c: char)
    ensures HexValue(c).Some? <==> IsHex(c)
    ensures IsHex(c) ==> HexValue(c) == Some(HexNumber(c)) && 0 <= HexNumber(c) < 16
  {
  }

  lemma {:induction false} UnitIsRead(item: Item, rest: string)
    requires item.Unit? && IsItem(item)
    ensures Hex4([item.a, item.b, item.c, item.d] + rest) == Some(UnitNumber(item))
  {
    HexIsNumber(item.a);
    HexIsNumber(item.b);
    HexIsNumber(item.c);
    HexIsNumber(item.d);
  }

  lemma {:induction false} ReadUnit(s: string) returns (item: Item)
    requires Hex4(s).Some?
    ensures |s| >= 4 && item == Unit(s[0], s[1], s[2], s[3]) && IsItem(item) && Hex4(s) == Some(UnitNumber(item))
  {
    HexIsNumber(s[0]);
    HexIsNumber(s[1]);
    HexIsNumber(s[2]);
    HexIsNumber(s[3]);
    item := Unit(s[0], s[1], s[2], s[3]);
    assert s == [item.a, item.b, item.c, item.d] + s[4..];
    UnitIsRead(item, s[4..]);
  }

  lemma {:induction false} RawIsRead(c: char, rest: string)
    requires IsItem(Raw(c))
    ensures Unescape([c] + rest) == Prepend([c], Unescape(rest))
  {
    assert ([c] + rest)[1..] == rest;
  }

  lemma {:induction false} ShortIsRead(letter: char, rest: string)
    requires IsItem(Short(letter))
    ensures Unescape(['\\', letter] + rest) == Prepend([ShortValue(letter)], Unescape(rest))
  {
    assert (['\\', letter] + rest)[2..] == rest;
    assert SimpleEscape(letter) == Some(ShortValue(letter));
  }

  /** The value of a unit at the front, if there is one. */
  function FrontUnit(s: string): Option<nat> {
    if |s| >= 6 && s[0] == '\\' && s[1] == 'u' then Hex4(s[2..]) else None
  }

  lemma {:induction false} UnitInFront(item: Item, rest: string)
    requires item.Unit? && IsItem(item)
    ensures FrontUnit(ItemText(item) + rest) == Some(UnitNumber(item)) && (ItemText(item) + rest)[6..] == rest
  {
    var s := ItemText(item) + rest;
    assert s[2..] == [item.a, item.b, item.c, item.d] + rest;
    UnitIsRead(item, rest);
  }

  lemma {:induction false} UnescapeUnit(s: string)
    requires FrontUnit(s).Some?
    ensures var n, rest := FrontUnit(s).value, s[6..];
            var low := FrontUnit(rest);
            Unescape(s) == if !(55296 <= n <= 57343) then Prepend([n as char], Unescape(rest))
                           else if n <= 56319 && low.Some? && 56320 <= low.value <= 57343 then
                             Prepend([(65536 + (n - 55296) * 1024 + (low.value - 56320)) as char], Unescape(rest[6..]))
                           else Prepend(['\U{FFFD}'], Unescape(rest))
  {
    hide Hex4;
    var rest := s[6..];
    if |s| >= 12 {
      assert s[8..] == rest[2..] && s[12..] == rest[6..];
    }
  }

  /** What does not start with a unit. */
  lemma {:induction false} NoUnitInFront(items: seq<Item>)
    requires AllItems(items) && (|items| > 0 ==> !items[0].Unit?)
    ensures FrontUnit(ItemsText(items)).None?
  {
    if |items| > 0 {
      assert IsItem(items[0]);
      assert ItemsText(items)[0] == ItemText(items[0])[0];
      assert items[0].Short? ==> ItemsText(items)[1] == ItemText(items[0])[1];
    }
  }

  lemma {:induction false} FirstUnitIsRead(items: seq<Item>)
    requires AllItems(items) && |items| > 0 && items[0].Unit?
    ensures FrontUnit(ItemsText(items)) == Some(UnitNumber(items[0])) && ItemsText(items)[6..] == ItemsText(items[1..])
  {
    assert IsItem(items[0]);
    UnitInFront(items[0], ItemsText(items[1..]));
  }

  lemma {:induction false} TailsAreItems(items: seq<Item>)
    requires AllItems(items)
    ensures |items| > 0 ==> IsItem(items[0]) && AllItems(items[1..])
    ensures |items| > 1 ==> AllItems(items[2..]) && items[1..][0] == items[1] && items[1..][1..] == items[2..]
  {
    assert |items| > 0 ==> forall i :: 0 <= i < |items[1..]| ==> items[1..][i] == items[i + 1];
  }

  lemma {:induction false} ItemsAreRead(items: seq<Item>)
    requires AllItems(items)
    ensures Unescape(ItemsText(items)) == Some(ItemsValue(items))
    decreases |items|
  {
    hide Hex4, Unescape, FrontUnit, AllItems, UnitNumber;
    if |items| == 0 {
      assert Unescape("") == Some("") by {
        EmptyIsRead();
      }
    } else {
      TailsAreItems(items);
      ItemsAreRead(items[1..]);
      match items[0]
      case Raw(c) => RawIsRead(c, ItemsText(items[1..]));
      case Short(letter) => ShortIsRead(letter, ItemsText(items[1..]));
      case Unit(_, _, _, _) =>
        FirstUnitIsRead(items);
        UnescapeUnit(ItemsText(items));
        if |items| > 1 && items[1].Unit? {
          FirstUnitIsRead(items[1..]);
          if IsPair(items) {
            ItemsAreRead(items[2..]);
          }
        } else {
          NoUnitInFront(items[1..]);
        }
    }
  }

  lemma {:induction false} EmptyIsRead()
    ensures Unescape("") == Some("")
  {
  }

  /** Whatever is read as the inside of a literal consists of items. */
  lemma {:induction false} ReadIsItems(s: string) returns (items: seq<Item>)
    requires Unescape(s).Some?
    ensures AllItems(items) && ItemsText(items) == s
    decreases |s|
  {
    hide Hex4;
    if s == "" {
      return [];
    }
    var first, n := Raw(s[0]), 1;
    if s[0] == '\\' {
      if s[1] == 'u' {
        var unit := ReadUnit(s[2..]);
        first, n := unit, 6;
        assert s[..6] == ItemText(first);
      } else {
        first, n := Short(s[1]), 2;
        assert s[..2] == ItemText(first);
      }
    } else {
      assert s[..1] == ItemText(first);
    }
    RestIsRead(s, n);
    var rest := ReadIsItems(s[n..]);
    items := [first] + rest;
    assert items[1..] == rest && s == s[..n] + s[n..];
  }

  /** What follows the first item is read, too, even if the item made a pair with the next one. */
  lemma {:induction false} RestIsRead(s: string, n: nat)
    requires Unescape(s).Some? && s != ""
    requires n == if s[0] != '\\' then 1 else if s[1] == 'u' then 6 else 2
    ensures n <= |s| && Unescape(s[n..]).Some?
  {
    hide Hex4;
    if n == 6 {
      var unit := ReadUnit(s[2..]);
      assert FrontUnit(s).Some?;
      UnescapeUnit(s);
      var rest := s[6..];
      if FrontUnit(rest).Some? {
        UnescapeUnit(rest);
      }
    }
  }

  /** The inside of a literal is read exactly when it consists of such items, and as what they stand for. */
  lemma {:induction false} LiteralsAreRead(s: string)
    ensures Unescape(s).Some? <==> exists items :: AllItems(items) && ItemsText(items) == s
    ensures forall items :: AllItems(items) && ItemsText(items) == s ==> Unescape(s) == Some(ItemsValue(items))
  {
    if Unescape(s).Some? {
      var items := ReadIsItems(s);
    }
    forall items | AllItems(items) && ItemsText(items) == s ensures Unescape(s) == Some(ItemsValue(items)) {
      ItemsAreRead(items);
    }
  }

  // ----- What is escaped -----

  /** Only what has to be, what HTML and JavaScript treat specially, and nothing longer than it need be. */
  lemma {:induction false} EscapesWhatItMust(c: char)
    ensures |EscapeChar(c)| == (if c in {'"', '\\', '\U{08}', '\U{09}', '\U{0A}', '\U{0C}', '\U{0D}'} then 2
                                else if c < '\U{20}' || c in {'<', '>', '&', '\U{2028}', '\U{2029}'} then 6 else 1)
    ensures Unescape(EscapeChar(c)) == Some([c])
    ensures |EscapeChar(c)| == 6 ==> forall i :: 2 <= i < 6 ==> '0' <= EscapeChar(c)[i] <= '9' || 'a' <= EscapeChar(c)[i] <= 'f'
  {
    UnescapeChar(c, "");
    EmptyIsRead();
    assert EscapeChar(c) + "" == EscapeChar(c) && [c] + "" == [c];
  }
}
