/** `toSQL`, and a reader that gets every value back from its literal. */
module SqlLiterals {
  import opened Values

  type Octet = n: nat | n < 256

  /**
   * What `toSQL` is given. A finite number is its own `toString()`, a date its `toISOString()`.
   * Node buffers and array buffers are both `Binary`.
   */
  datatype SqlValue =
    | SqlText(text: string)
    | Finite(numeral: string)
    | NaN
    | Infinite(positive: bool)
    | SqlBoolean(truth: bool)
    | SqlNull
    | Date(iso: string)
    | List(items: seq<SqlValue>)
    | Binary(octets: seq<Octet>)
    | Unsupported

  const NAN := "CAST('NaN' AS DOUBLE)"
  const INFINITY := "CAST('Infinity' AS DOUBLE)"
  const MINUS_INFINITY := "CAST('-Infinity' AS DOUBLE)"

  // ---------------------------------------------------------------- printing

  function Doubled(s: string): string {
    if s == [] then []
    else (if s[0] == '\'' then "''" else [s[0]]) + Doubled(s[1..])
  }

  const HEX := "0123456789abcdef"

  function Hex(octets: seq<Octet>): string {
    if octets == [] then []
    else [HEX[octets[0] / 16], HEX[octets[0] % 16]] + Hex(octets[1..])
  }

  function Join(parts: seq<string>): string {
    if parts == [] then ""
    else if |parts| == 1 then parts[0]
    else parts[0] + ", " + Join(parts[1..])
  }

  /** `toSQL`. */
  function Print(v: SqlValue): Result<string> {
    match v
    case SqlText(s) => Ok("'" + Doubled(s) + "'")
    case Finite(numeral) => Ok(numeral)
    case NaN => Ok(NAN)
    case Infinite(positive) => Ok(if positive then INFINITY else MINUS_INFINITY)
    case SqlBoolean(b) => Ok(if b then "TRUE" else "FALSE")
    case SqlNull => Ok("NULL")
    case Date(iso) => Ok("'" + iso + "'")
    case List(items) => (match PrintAll(items) case Err => Err case Ok(parts) => Ok("[" + Join(parts) + "]"))
    case Binary(octets) => Ok("X'" + Hex(octets) + "'")
    case Unsupported => Err
  }

  function PrintAll(items: seq<SqlValue>): (r: Result<seq<string>>)
    ensures r.Ok? ==> |r.value| == |items|
  {
    if items == [] then Ok([])
    else match Print(items[0])
      case Err => Err
      case Ok(first) => (match PrintAll(items[1..]) case Err => Err case Ok(rest) => Ok([first] + rest))
  }

  // ---------------------------------------------------------------- what can be printed

  predicate IsDigit(c: char) { '0' <= c <= '9' }

  predicate NumeralChar(c: char) { IsDigit(c) || c in "-+.e" }

  /** The shape of a finite number's `toString()`. */
  predicate IsNumeral(s: string) {
    s != [] && (IsDigit(s[0]) || s[0] == '-') && forall c | c in s :: NumeralChar(c)
  }

  /** Numbers and dates print as numerals and without quotes. */
  predicate WellFormed(v: SqlValue) {
    match v
    case Finite(numeral) => IsNumeral(numeral)
    case Date(iso) => '\'' !in iso
    case List(items) => forall w | w in items :: WellFormed(w)
    case _ => true
  }

  predicate Supported(v: SqlValue) {
    match v
    case Unsupported => false
    case List(items) => forall w | w in items :: Supported(w)
    case _ => true
  }

  predicate NoDates(v: SqlValue) {
    match v
    case Date(_) => false
    case List(items) => forall w | w in items :: NoDates(w)
    case _ => true
  }

  lemma PrintSucceeds(v: SqlValue)
    ensures Print(v).Ok? <==> Supported(v)
  {
    if v.List? { PrintAllSucceeds(v.items); }
  }

  lemma {:induction false} PrintAllSucceeds(items: seq<SqlValue>)
    ensures PrintAll(items).Ok? <==> forall w | w in items :: Supported(w)
  {
    if items != [] {
      PrintSucceeds(items[0]);
      PrintAllSucceeds(items[1..]);
      assert items == [items[0]] + items[1..];
    }
  }

  /** A value as its literal shows it: a date reads as text. */
  function AsRead(v: SqlValue): SqlValue {
    match v
    case Date(iso) => SqlText(iso)
    case List(items) => List(AllAsRead(items))
    case _ => v
  }

  function AllAsRead(items: seq<SqlValue>): seq<SqlValue> {
    if items == [] then [] else [AsRead(items[0])] + AllAsRead(items[1..])
  }

  /** Dates are the only values that a literal does not tell apart. */
  lemma OnlyDatesChange(v: SqlValue)
    ensures AsRead(v) == v <==> NoDates(v)
  {
    if v.List? { OnlyDatesChangeAll(v.items); }
  }

  lemma {:induction false} OnlyDatesChangeAll(items: seq<SqlValue>)
    ensures AllAsRead(items) == items <==> forall w | w in items :: NoDates(w)
  {
    if items != [] {
      OnlyDatesChange(items[0]);
      OnlyDatesChangeAll(items[1..]);
      assert items == [items[0]] + items[1..];
      assert AllAsRead(items)[1..] == AllAsRead(items[1..]) && AllAsRead(items)[0] == AsRead(items[0]);
    }
  }

  // ---------------------------------------------------------------- reading

  datatype Parsed<T> = Parsed(value: T, rest: string)

  predicate Starts(s: string, prefix: string) {
    |prefix| <= |s| && s[..|prefix|] == prefix
  }

  function ReadQuoted(s: string): (r: Option<Parsed<string>>)
    ensures r.Some? ==> |r.value.rest| < |s|
  {
    if s == [] then None
    else if s[0] != '\'' then
      (match ReadQuoted(s[1..]) case None => None case Some(p) => Some(Parsed([s[0]] + p.value, p.rest)))
    else if 1 < |s| && s[1] == '\'' then
      (match ReadQuoted(s[2..]) case None => None case Some(p) => Some(Parsed(['\''] + p.value, p.rest)))
    else Some(Parsed([], s[1..]))
  }

  function HexDigit(c: char): (r: Option<nat>)
    ensures r.Some? ==> r.value < 16
  {
    if '0' <= c <= '9' then Some(c as int - '0' as int)
    else if 'a' <= c <= 'f' then Some(c as int - 'a' as int + 10)
    else None
  }

  function ReadHex(s: string): (r: Option<Parsed<seq<Octet>>>)
    ensures r.Some? ==> |r.value.rest| < |s|
  {
    if s == [] then None
    else if s[0] == '\'' then Some(Parsed([], s[1..]))
    else if |s| == 1 then None
    else match (HexDigit(s[0]), HexDigit(s[1]))
      case (Some(high), Some(low)) =>
        (match ReadHex(s[2..]) case None => None case Some(p) => Some(Parsed([16 * high + low] + p.value, p.rest)))
      case _ => None
  }

  function NumeralLength(s: string): (n: nat)
    ensures n <= |s|
  {
    if s == [] || !NumeralChar(s[0]) then 0 else 1 + NumeralLength(s[1..])
  }

  function Keyword(s: string): Option<Parsed<SqlValue>> {
    if Starts(s, "TRUE") then Some(Parsed(SqlBoolean(true), s[4..]))
    else if Starts(s, "FALSE") then Some(Parsed(SqlBoolean(false), s[5..]))
    else if Starts(s, "NULL") then Some(Parsed(SqlNull, s[4..]))
    else if Starts(s, "CAST('NaN' AS DOUBLE)") then Some(Parsed(NaN, s[21..]))
    else if Starts(s, "CAST('Infinity' AS DOUBLE)") then Some(Parsed(Infinite(true), s[26..]))
    else if Starts(s, "CAST('-Infinity' AS DOUBLE)") then Some(Parsed(Infinite(false), s[27..]))
    else None
  }

  /** Reads one literal off the front of the text. */
  function Read(s: string): (r: Option<Parsed<SqlValue>>)
    ensures r.Some? ==> |r.value.rest| < |s|
    decreases |s|, 0
  {
    if s == [] then None
    else if s[0] == '\'' then
      (match ReadQuoted(s[1..]) case None => None case Some(p) => Some(Parsed(SqlText(p.value), p.rest)))
    else if Starts(s, "X'") then
      (match ReadHex(s[2..]) case None => None case Some(p) => Some(Parsed(Binary(p.value), p.rest)))
    else if s[0] == '[' then
      if Starts(s, "[]") then Some(Parsed(List([]), s[2..]))
      else (match ReadItems(s[1..]) case None => None case Some(p) => Some(Parsed(List(p.value), p.rest)))
    else if IsDigit(s[0]) || s[0] == '-' then
      var n := NumeralLength(s);
      Some(Parsed(Finite(s[..n]), s[n..]))
    else Keyword(s)
  }

  function ReadItems(s: string): (r: Option<Parsed<seq<SqlValue>>>)
    ensures r.Some? ==> |r.value.rest| < |s|
    decreases |s|, 1
  {
    match Read(s)
    case None => None
    case Some(first) =>
      if Starts(first.rest, "]") then Some(Parsed([first.value], first.rest[1..]))
      else if Starts(first.rest, ", ") then
        (match ReadItems(first.rest[2..])
         case None => None
         case Some(more) => Some(Parsed([first.value] + more.value, more.rest)))
      else None
  }

  // ---------------------------------------------------------------- the round trip

  /** What may follow a literal. */
  predicate Delimited(rest: string) {
    rest == [] || rest[0] == ',' || rest[0] == ']'
  }

  lemma {:induction false} QuotedRoundTrip(s: string, rest: string)
    requires Delimited(rest)
    ensures ReadQuoted(Doubled(s) + "'" + rest) == Some(Parsed(s, rest))
  {
    var t := Doubled(s) + "'" + rest;
    if s == [] {
      assert t == "'" + rest;
    } else if s[0] == '\'' {
      QuotedRoundTrip(s[1..], rest);
      assert s == [s[0]] + s[1..];
      assert t[2..] == Doubled(s[1..]) + "'" + rest;
    } else {
      QuotedRoundTrip(s[1..], rest);
      assert s == [s[0]] + s[1..];
      assert t[1..] == Doubled(s[1..]) + "'" + rest;
    }
  }

  lemma {:induction false} NothingToDouble(s: string)
    requires '\'' !in s
    ensures Doubled(s) == s
  {
    if s != [] { NothingToDouble(s[1..]); }
  }

  lemma HexDigitBack(n: nat)
    requires n < 16
    ensures HexDigit(HEX[n]) == Some(n) && HEX[n] != '\''
  {
  }

  lemma ReadOctet(high: nat, low: nat, s: string, octets: seq<Octet>, rest: string)
    requires high < 16 && low < 16 && ReadHex(s) == Some(Parsed(octets, rest))
    ensures ReadHex([HEX[high], HEX[low]] + s) == Some(Parsed([16 * high + low] + octets, rest))
  {
    HexDigitBack(high);
    HexDigitBack(low);
    assert ([HEX[high], HEX[low]] + s)[2..] == s;
  }

  lemma {:induction false} HexRoundTrip(octets: seq<Octet>, rest: string)
    ensures ReadHex(Hex(octets) + "'" + rest) == Some(Parsed(octets, rest))
  {
    if octets == [] {
      assert Hex(octets) + "'" + rest == "'" + rest;
    } else {
      var high, low, s := octets[0] / 16, octets[0] % 16, Hex(octets[1..]) + "'" + rest;
      HexRoundTrip(octets[1..], rest);
      ReadOctet(high, low, s, octets[1..], rest);
      HexSplits(octets, rest);
    }
  }

  lemma {:induction false} HexSplits(octets: seq<Octet>, rest: string)
    requires octets != []
    ensures Hex(octets) + "'" + rest ==
            [HEX[octets[0] / 16], HEX[octets[0] % 16]] + (Hex(octets[1..]) + "'" + rest)
    ensures [16 * (octets[0] / 16) + octets[0] % 16] + octets[1..] == octets
  {
  }

  lemma {:induction false} NumeralRoundTrip(s: string, rest: string)
    requires (forall c | c in s :: NumeralChar(c)) && Delimited(rest)
    ensures NumeralLength(s + rest) == |s|
  {
    if s == [] {
      assert s + rest == rest;
    } else {
      NumeralRoundTrip(s[1..], rest);
      assert (s + rest)[1..] == s[1..] + rest;
    }
  }

  lemma StartsWithItself(word: string, rest: string)
    ensures Starts(word + rest, word) && (word + rest)[|word|..] == rest
  {
  }

  lemma StartsDifferently(word: string, rest: string, other: string, k: nat)
    requires k < |word| && k < |other| && word[k] != other[k]
    ensures !Starts(word + rest, other)
  {
    var s := word + rest;
    if |other| <= |s| { assert s[..|other|][k] == word[k]; }
  }

  lemma ShortWord(v: SqlValue, rest: string)
    requires v.SqlBoolean? || v.SqlNull?
    ensures Keyword(Print(v).value + rest) == Some(Parsed(v, rest))
  {
    var word := Print(v).value;
    StartsWithItself(word, rest);
    if word != "TRUE" { StartsDifferently(word, rest, "TRUE", 0); }
    if word == "NULL" { StartsDifferently(word, rest, "FALSE", 0); }
  }

  lemma CastWord(v: SqlValue, rest: string)
    requires v.NaN? || v.Infinite?
    ensures Keyword(Print(v).value + rest) == Some(Parsed(v, rest))
  {
    var word := Print(v).value;
    StartsWithItself(word, rest);
    StartsDifferently(word, rest, "TRUE", 0);
    StartsDifferently(word, rest, "FALSE", 0);
    StartsDifferently(word, rest, "NULL", 0);
    if v.Infinite? {
      StartsDifferently(word, rest, NAN, 6);
      if !v.positive { StartsDifferently(word, rest, INFINITY, 6); }
    }
  }

  lemma KeywordAtFront(v: SqlValue, rest: string)
    requires v.NaN? || v.Infinite? || v.SqlBoolean? || v.SqlNull?
    ensures Read(Print(v).value + rest) == Some(Parsed(v, rest))
  {
    var s := Print(v).value + rest;
    if v.NaN? || v.Infinite? { CastWord(v, rest); } else { ShortWord(v, rest); }
    assert s[0] == Print(v).value[0] && s[0] in "TFNC";
    ReadKeyword(s);
  }

  lemma ReadKeyword(s: string)
    requires s != [] && s[0] in "TFNC" && Keyword(s).Some?
    ensures Read(s) == Keyword(s)
  {
    if 2 <= |s| { assert s[..2][0] == s[0]; }
  }

  /** Reading what was printed gives the value back, and nothing more is consumed. */
  lemma {:induction false} ReadAfterPrint(v: SqlValue, rest: string)
    requires WellFormed(v) && Supported(v) && Delimited(rest)
    ensures Print(v).Ok? && Read(Print(v).value + rest) == Some(Parsed(AsRead(v), rest))
    decreases v
  {
    PrintSucceeds(v);
    match v {
      case SqlText(text) => QuotedAtFront(text, rest);
      case Date(iso) => NothingToDouble(iso); QuotedAtFront(iso, rest);
      case Binary(octets) => BinaryAtFront(octets, rest);
      case Finite(numeral) => NumeralAtFront(numeral, rest);
      case List(items) => ListRoundTrip(items, rest);
      case NaN => KeywordAtFront(v, rest);
      case Infinite(_) => KeywordAtFront(v, rest);
      case SqlBoolean(_) => KeywordAtFront(v, rest);
      case SqlNull => KeywordAtFront(v, rest);
    }
  }

  lemma QuotedAtFront(text: string, rest: string)
    requires Delimited(rest)
    ensures Read("'" + Doubled(text) + "'" + rest) == Some(Parsed(SqlText(text), rest))
  {
    var s := "'" + Doubled(text) + "'" + rest;
    QuotedRoundTrip(text, rest);
    assert s[1..] == Doubled(text) + "'" + rest;
  }

  lemma BinaryAtFront(octets: seq<Octet>, rest: string)
    ensures Read("X'" + Hex(octets) + "'" + rest) == Some(Parsed(Binary(octets), rest))
  {
    var s := "X'" + Hex(octets) + "'" + rest;
    HexRoundTrip(octets, rest);
    assert s[2..] == Hex(octets) + "'" + rest && s[..2] == "X'";
  }

  lemma NumeralAtFront(numeral: string, rest: string)
    requires IsNumeral(numeral) && Delimited(rest)
    ensures Read(numeral + rest) == Some(Parsed(Finite(numeral), rest))
  {
    var s := numeral + rest;
    NumeralRoundTrip(numeral, rest);
    assert s[..|numeral|] == numeral && s[|numeral|..] == rest;
  }

  lemma ListAtFront(t: string, values: seq<SqlValue>, rest: string)
    requires t != [] && t[0] != ']' && ReadItems(t) == Some(Parsed(values, rest))
    ensures Read("[" + t) == Some(Parsed(List(values), rest))
  {
    var s := "[" + t;
    assert s[0] == '[' && s[1..] == t && s[..2] == ['[', t[0]];
    assert !Starts(s, "[]") && !Starts(s, "X'");
  }

  lemma {:induction false} ListRoundTrip(items: seq<SqlValue>, rest: string)
    requires forall w | w in items :: WellFormed(w) && Supported(w)
    ensures PrintAll(items).Ok?
    ensures Read("[" + Join(PrintAll(items).value) + "]" + rest) == Some(Parsed(List(AllAsRead(items)), rest))
    decreases items, 1
  {
    PrintAllSucceeds(items);
    var t := ItemsText(items, rest);
    assert "[" + Join(PrintAll(items).value) + "]" + rest == "[" + t;
    if items == [] {
      EmptyAtFront(rest);
      assert t == "]" + rest;
      assert "[" + t == "[]" + rest;
    } else {
      ItemsRoundTrip(items, rest);
      FirstOfItems(items);
      assert t[0] == Join(PrintAll(items).value)[0];
      ListAtFront(t, AllAsRead(items), rest);
    }
  }

  lemma EmptyAtFront(rest: string)
    ensures Read("[]" + rest) == Some(Parsed(List([]), rest))
  {
    var s := "[]" + rest;
    assert s[..2] == "[]" && s[2..] == rest;
  }

  /** A printed list with items does not begin like the end of one. */
  lemma FirstOfItems(items: seq<SqlValue>)
    requires items != [] && PrintAll(items).Ok? && WellFormed(items[0])
    ensures Join(PrintAll(items).value) != [] && Join(PrintAll(items).value)[0] != ']'
  {
    var first := Print(items[0]).value;
    assert first != [] && first[0] != ']';
  }

  lemma ReadLastItem(s: string, v: SqlValue, rest: string)
    requires Read(s) == Some(Parsed(v, "]" + rest))
    ensures ReadItems(s) == Some(Parsed([v], rest))
  {
    assert ("]" + rest)[..1] == "]" && ("]" + rest)[1..] == rest;
  }

  lemma ReadMoreItems(s: string, v: SqlValue, tail: string, more: seq<SqlValue>, rest: string)
    requires Read(s) == Some(Parsed(v, ", " + tail)) && ReadItems(tail) == Some(Parsed(more, rest))
    ensures ReadItems(s) == Some(Parsed([v] + more, rest))
  {
    var after := ", " + tail;
    assert after[..1] == "," && after[..2] == ", " && after[2..] == tail;
  }

  /** The text of a list after its opening bracket. */
  function ItemsText(items: seq<SqlValue>, rest: string): string
    requires PrintAll(items).Ok?
  {
    Join(PrintAll(items).value) + "]" + rest
  }

  lemma {:induction false} ItemsTextSplits(items: seq<SqlValue>, rest: string)
    requires items != [] && PrintAll(items).Ok?
    ensures Print(items[0]).Ok? && PrintAll(items[1..]).Ok?
    ensures |items| == 1 ==> ItemsText(items, rest) == Print(items[0]).value + ("]" + rest)
    ensures 1 < |items| ==> ItemsText(items, rest) == Print(items[0]).value + (", " + ItemsText(items[1..], rest))
  {
    var parts := PrintAll(items).value;
    assert parts[1..] == PrintAll(items[1..]).value;
  }

  lemma {:induction false} ItemsRoundTrip(items: seq<SqlValue>, rest: string)
    requires items != [] && forall w | w in items :: WellFormed(w) && Supported(w)
    ensures PrintAll(items).Ok?
    ensures ReadItems(ItemsText(items, rest)) == Some(Parsed(AllAsRead(items), rest))
    decreases items, 0
  {
    PrintAllSucceeds(items);
    ItemsTextSplits(items, rest);
    var s := ItemsText(items, rest);
    if |items| == 1 {
      ReadAfterPrint(items[0], "]" + rest);
      ReadLastItem(s, AsRead(items[0]), rest);
      assert AllAsRead(items) == [AsRead(items[0])];
    } else {
      var tail := ItemsText(items[1..], rest);
      ReadAfterPrint(items[0], ", " + tail);
      ItemsRoundTrip(items[1..], rest);
      ReadMoreItems(s, AsRead(items[0]), tail, AllAsRead(items[1..]), rest);
    }
  }

  /** Different date-free values have different literals. */
  lemma LiteralsAreUnambiguous(v: SqlValue, w: SqlValue)
    requires WellFormed(v) && WellFormed(w) && Supported(v) && Supported(w)
    ensures Print(v) == Print(w) <==> AsRead(v) == AsRead(w)
    ensures NoDates(v) && NoDates(w) && Print(v) == Print(w) ==> v == w
  {
    ReadAfterPrint(v, []);
    ReadAfterPrint(w, []);
    assert Print(v).value + [] == Print(v).value && Print(w).value + [] == Print(w).value;
    OnlyDatesChange(v);
    OnlyDatesChange(w);
    PrintIgnoresDates(v);
    PrintIgnoresDates(w);
  }

  lemma PrintIgnoresDates(v: SqlValue)
    requires WellFormed(v)
    ensures Print(AsRead(v)) == Print(v)
  {
    if v.Date? { NothingToDouble(v.iso); }
    if v.List? { PrintAllIgnoresDates(v.items); }
  }

  lemma {:induction false} PrintAllIgnoresDates(items: seq<SqlValue>)
    requires forall w | w in items :: WellFormed(w)
    ensures PrintAll(AllAsRead(items)) == PrintAll(items)
  {
    if items != [] {
      PrintIgnoresDates(items[0]);
      PrintAllIgnoresDates(items[1..]);
    }
  }
}
