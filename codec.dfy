/**
 * The callback-token codec. domain/BotMessageInfo.kt (Java source set),
 * domain/BotMessageType.kt and domain/MessageInfo.kt (Kotlin source set) are
 * the same code under three names: a node of the main tree is addressed as
 * `Normal(id)` and written `"1_<id>"`, a node of a search-result tree as
 * `Search(id, chatId)` and written `"2_<id>_<chatId>"`.
 */
module Codec {
  import opened Wrappers

  const MIN_LONG: int := -0x8000_0000_0000_0000
  const MAX_LONG: int := 0x7FFF_FFFF_FFFF_FFFF
  const MIN_INT: int := -0x8000_0000
  const MAX_INT: int := 0x7FFF_FFFF

  /** Kotlin's 64-bit `Long`. */
  type Long = x: int | MIN_LONG <= x <= MAX_LONG

  const NORMAL_TYPE_ID: int := 1
  const SEARCH_TYPE_ID: int := 2
  const DELIMITER: char := '_'

  datatype MessageInfo = Normal(id: Long) | Search(id: Long, chatId: Long)

  /** What `deserialize` does: return a value, return null, or throw
      (`NumberFormatException` or `IndexOutOfBoundsException`). */
  datatype Decoded = Decoded(info: MessageInfo) | Unrecognised | Fault

  // ---------------------------------------------------------------------
  // Decimal numerals (`Int.toString`, `Long.toString`, `toInt`, `toLong`).

  predicate IsDigit(c: char)
  {
    '0' <= c <= '9'
  }

  function DigitChar(d: int): (c: char)
    requires 0 <= d < 10
    ensures IsDigit(c)
  {
    (('0' as int) + d) as char
  }

  function NatString(n: nat): (r: string)
    ensures |r| >= 1 && forall i :: 0 <= i < |r| ==> IsDigit(r[i])
  {
    if n < 10 then [DigitChar(n)] else NatString(n / 10) + [DigitChar(n % 10)]
  }

  /** The decimal form of an integer, with a leading `-` when negative. */
  function Decimal(x: int): (r: string)
    ensures |r| >= 1
  {
    if x < 0 then "-" + NatString(-x) else NatString(x)
  }

  predicate AllDigits(s: string)
  {
    forall i :: 0 <= i < |s| ==> IsDigit(s[i])
  }

  function DigitsValue(s: string): nat
    requires AllDigits(s)
  {
    if s == [] then 0 else DigitsValue(s[..|s| - 1]) * 10 + ((s[|s| - 1] as int) - ('0' as int))
  }

  /**
   * `Integer.parseInt` / `Long.parseLong` on ASCII digits: an optional sign,
   * at least one digit, and a value within `lo..hi`; anything else is a
   * `NumberFormatException`, here `None`.
   */
  function ParseInteger(s: string, lo: int, hi: int): (r: Option<int>)
    ensures r.Some? ==> lo <= r.value <= hi
  {
    if |s| == 0 then None
    else
      var digits := if s[0] == '-' || s[0] == '+' then s[1..] else s;
      if |digits| == 0 || !AllDigits(digits) then None
      else
        var n: int := DigitsValue(digits);
        var v := if s[0] == '-' then -n else n;
        if lo <= v <= hi then Some(v) else None
  }

  function ParseLong(s: string): Option<Long>
  {
    match ParseInteger(s, MIN_LONG, MAX_LONG)
    case None => None
    case Some(v) => Some(v)
  }

  lemma {:induction false} NatStringValue(n: nat)
    ensures DigitsValue(NatString(n)) == n
  {
    if n >= 10 {
      var s := NatString(n);
      NatStringValue(n / 10);
      assert s[..|s| - 1] == NatString(n / 10);
    }
  }

  /** Parsing undoes `Decimal` for every value in range. */
  lemma ParseDecimal(x: int, lo: int, hi: int)
    requires lo <= x <= hi
    ensures ParseInteger(Decimal(x), lo, hi) == Some(x)
  {
    var s := Decimal(x);
    if x < 0 {
      var d := NatString(-x);
      NatStringValue(-x);
      assert s[0] == '-' && s[1..] == d && AllDigits(d);
    } else {
      var d := NatString(x);
      NatStringValue(x);
      assert s == d && IsDigit(s[0]) && AllDigits(d);
    }
  }

  // ---------------------------------------------------------------------
  // Kotlin's `split(DELIMITER)`: every delimiter separates two fields,
  // empty fields included, so the result is never empty.

  function Split(s: string, d: char): (parts: seq<string>)
    ensures |parts| >= 1
  {
    if s == [] then [[]]
    else
      var r := Split(s[1..], d);
      if s[0] == d then [[]] + r else [[s[0]] + r[0]] + r[1..]
  }

  lemma {:induction false} SplitNoDelimiter(a: string, d: char)
    requires d !in a
    ensures Split(a, d) == [a]
  {
    if a != [] {
      SplitNoDelimiter(a[1..], d);
      assert [a[0]] + a[1..] == a;
    }
  }

  lemma {:induction false} SplitAtDelimiter(a: string, d: char, b: string)
    requires d !in a
    ensures Split(a + [d] + b, d) == [a] + Split(b, d)
  {
    var s := a + [d] + b;
    if a == [] {
      assert s[1..] == b;
    } else {
      assert s[1..] == a[1..] + [d] + b;
      SplitAtDelimiter(a[1..], d, b);
      assert [a[0]] + a[1..] == a;
    }
  }

  lemma DecimalWithoutDelimiter(x: int)
    ensures DELIMITER !in Decimal(x)
  {
    var s := Decimal(x);
    forall i | 0 <= i < |s| ensures s[i] != DELIMITER {
      if x < 0 && i > 0 { assert s[i] == NatString(-x)[i - 1]; }
    }
  }

  // ---------------------------------------------------------------------
  // The codec itself.

  /** `serialize()`: type id, delimiter, id, and for `Search` a delimiter and
      the chat id. */
  function Serialize(info: MessageInfo): string
  {
    match info
    case Normal(id) => Decimal(NORMAL_TYPE_ID) + [DELIMITER] + Decimal(id)
    case Search(id, chatId) =>
      Decimal(SEARCH_TYPE_ID) + [DELIMITER] + Decimal(id) + [DELIMITER] + Decimal(chatId)
  }

  /**
   * `deserialize(value)`: split on the delimiter, parse the first field as an
   * `Int`; 1 gives `Normal` of the LAST field, 2 gives `Search` of fields 1
   * and 2 (further fields are ignored), any other number gives null. A failed
   * parse or a missing field throws.
   */
  function Deserialize(value: string): Decoded
  {
    var parts := Split(value, DELIMITER);
    match ParseInteger(parts[0], MIN_INT, MAX_INT)
    case None => Fault
    case Some(tag) =>
      if tag == NORMAL_TYPE_ID then
        match ParseLong(parts[|parts| - 1])
        case None => Fault
        case Some(id) => Decoded(Normal(id))
      else if tag == SEARCH_TYPE_ID then
        if |parts| < 3 then Fault
        else
          match (ParseLong(parts[1]), ParseLong(parts[2]))
          case (Some(id), Some(chatId)) => Decoded(Search(id, chatId))
          case _ => Fault
      else Unrecognised
  }

  /** The fields of a serialised `Normal` token are the numbers written. */
  lemma SplitNormal(id: Long)
    ensures Split(Serialize(Normal(id)), DELIMITER) == [Decimal(NORMAL_TYPE_ID), Decimal(id)]
  {
    DecimalWithoutDelimiter(id);
    SplitNoDelimiter(Decimal(id), DELIMITER);
    DecimalWithoutDelimiter(NORMAL_TYPE_ID);
    SplitAtDelimiter(Decimal(NORMAL_TYPE_ID), DELIMITER, Decimal(id));
  }

  /** The fields of a serialised `Search` token are the numbers written. */
  lemma SplitSearch(id: Long, chatId: Long)
    ensures Split(Serialize(Search(id, chatId)), DELIMITER) ==
            [Decimal(SEARCH_TYPE_ID), Decimal(id), Decimal(chatId)]
  {
    var t, a, b := Decimal(SEARCH_TYPE_ID), Decimal(id), Decimal(chatId);
    DecimalWithoutDelimiter(id);
    DecimalWithoutDelimiter(chatId);
    DecimalWithoutDelimiter(SEARCH_TYPE_ID);
    SplitNoDelimiter(b, DELIMITER);
    SplitAtDelimiter(a, DELIMITER, b);
    var tail := a + [DELIMITER] + b;
    SplitAtDelimiter(t, DELIMITER, tail);
    assert Split(tail, DELIMITER) == [a, b];
    assert t + [DELIMITER] + a + [DELIMITER] + b == t + [DELIMITER] + tail;
  }

  /** Every token the codec writes is read back as the value it was written
      from, for all 64-bit ids and chat ids. */
  lemma RoundTrip(info: MessageInfo)
    ensures Deserialize(Serialize(info)) == Decoded(info)
  {
    ParseDecimal(info.id, MIN_LONG, MAX_LONG);
    match info
    case Normal(id) =>
      SplitNormal(id);
      ParseDecimal(NORMAL_TYPE_ID, MIN_INT, MAX_INT);
    case Search(id, chatId) =>
      SplitSearch(id, chatId);
      ParseDecimal(SEARCH_TYPE_ID, MIN_INT, MAX_INT);
      ParseDecimal(chatId, MIN_LONG, MAX_LONG);
  }

  /** `deserialize` returns null exactly when the first field is a number
      other than the two type ids. */
  lemma UnrecognisedIff(value: string)
    ensures Deserialize(value) == Unrecognised <==>
            var tag := ParseInteger(Split(value, DELIMITER)[0], MIN_INT, MAX_INT);
            tag.Some? && tag.value != NORMAL_TYPE_ID && tag.value != SEARCH_TYPE_ID
  {
  }

  function Occurrences(s: string, c: char): nat
  {
    if s == [] then 0 else (if s[0] == c then 1 else 0) + Occurrences(s[1..], c)
  }

  lemma {:induction false} OccurrencesAppend(a: string, b: string, c: char)
    ensures Occurrences(a + b, c) == Occurrences(a, c) + Occurrences(b, c)
  {
    if a == [] {
      assert a + b == b;
    } else {
      assert (a + b)[1..] == a[1..] + b;
      OccurrencesAppend(a[1..], b, c);
    }
  }

  lemma {:induction false} OccurrencesAbsent(a: string, c: char)
    requires c !in a
    ensures Occurrences(a, c) == 0
  {
    if a != [] { OccurrencesAbsent(a[1..], c); }
  }

  /** A `Normal` token holds one delimiter and a `Search` token two. */
  lemma DelimiterCount(info: MessageInfo)
    ensures Occurrences(Serialize(info), DELIMITER) == if info.Normal? then 1 else 2
  {
    DecimalWithoutDelimiter(info.id);
    OccurrencesAbsent(Decimal(info.id), DELIMITER);
    assert Occurrences([DELIMITER], DELIMITER) == 1;
    match info
    case Normal(id) =>
      OccurrencesAbsent(Decimal(NORMAL_TYPE_ID), DELIMITER) by { DecimalWithoutDelimiter(NORMAL_TYPE_ID); }
      OccurrencesAppend(Decimal(NORMAL_TYPE_ID), [DELIMITER], DELIMITER);
      OccurrencesAppend(Decimal(NORMAL_TYPE_ID) + [DELIMITER], Decimal(id), DELIMITER);
    case Search(id, chatId) =>
      DecimalWithoutDelimiter(chatId);
      OccurrencesAbsent(Decimal(chatId), DELIMITER);
      OccurrencesAbsent(Decimal(SEARCH_TYPE_ID), DELIMITER) by { DecimalWithoutDelimiter(SEARCH_TYPE_ID); }
      var a := Decimal(SEARCH_TYPE_ID) + [DELIMITER];
      OccurrencesAppend(Decimal(SEARCH_TYPE_ID), [DELIMITER], DELIMITER);
      OccurrencesAppend(a, Decimal(id), DELIMITER);
      OccurrencesAppend(a + Decimal(id), [DELIMITER], DELIMITER);
      OccurrencesAppend(a + Decimal(id) + [DELIMITER], Decimal(chatId), DELIMITER);
  }

  // ---------------------------------------------------------------------
  // Tokens the codec never writes.

  /** The type id 1 takes the LAST field, so extra fields are tolerated and a
      token without a delimiter is read as its own id. */
  lemma NormalTakesLastField()
    ensures Deserialize("1_5_9") == Decoded(Normal(9))
    ensures Deserialize("1") == Decoded(Normal(1))
  {
    SplitNoDelimiter("9", DELIMITER);
    SplitAtDelimiter("5", DELIMITER, "9");
    SplitAtDelimiter("1", DELIMITER, "5_9");
    assert "1_5_9" == "1" + [DELIMITER] + "5_9";
    assert "5_9" == "5" + [DELIMITER] + "9";
    SplitNoDelimiter("1", DELIMITER);
    ParseDecimal(1, MIN_INT, MAX_INT);
    ParseDecimal(9, MIN_LONG, MAX_LONG);
    ParseDecimal(1, MIN_LONG, MAX_LONG);
  }

  /** The type id 2 reads fields 1 and 2 and ignores whatever follows. */
  lemma SearchIgnoresExtraFields(id: Long, chatId: Long, rest: string)
    ensures Deserialize(Serialize(Search(id, chatId)) + [DELIMITER] + rest) == Decoded(Search(id, chatId))
  {
    var t, a, b := Decimal(SEARCH_TYPE_ID), Decimal(id), Decimal(chatId);
    DecimalWithoutDelimiter(id);
    DecimalWithoutDelimiter(chatId);
    DecimalWithoutDelimiter(SEARCH_TYPE_ID);
    var s2 := b + [DELIMITER] + rest;
    var s1 := a + [DELIMITER] + s2;
    SplitAtDelimiter(b, DELIMITER, rest);
    SplitAtDelimiter(a, DELIMITER, s2);
    SplitAtDelimiter(t, DELIMITER, s1);
    FieldsRegroup(t, a, b, rest);
    var parts := Split(t + [DELIMITER] + s1, DELIMITER);
    assert parts[0] == t && parts[1] == a && parts[2] == b;
    ParseDecimal(SEARCH_TYPE_ID, MIN_INT, MAX_INT);
    ParseDecimal(id, MIN_LONG, MAX_LONG);
    ParseDecimal(chatId, MIN_LONG, MAX_LONG);
  }

  /** Three fields and a tail, joined left to right, are the first field
      before the joined rest. */
  lemma FieldsRegroup(t: string, a: string, b: string, rest: string)
    ensures t + [DELIMITER] + a + [DELIMITER] + b + [DELIMITER] + rest
            == t + [DELIMITER] + (a + [DELIMITER] + (b + [DELIMITER] + rest))
  {
    var u := b + [DELIMITER] + rest;
    assert b + [DELIMITER] + rest == b + ([DELIMITER] + rest);
    assert a + [DELIMITER] + b + [DELIMITER] + rest == a + [DELIMITER] + u;
  }

  /** A `Search` token with fewer than three fields throws instead of giving
      null. */
  lemma SearchMissingField()
    ensures Deserialize("2_7") == Fault
  {
    SplitNoDelimiter("7", DELIMITER);
    assert "2_7" == "2" + [DELIMITER] + "7";
    SplitAtDelimiter("2", DELIMITER, "7");
    ParseDecimal(2, MIN_INT, MAX_INT);
  }

  /** An unknown type id gives null; a non-numeric field throws. */
  lemma MalformedTokens()
    ensures Deserialize("3_7") == Unrecognised
    ensures Deserialize("x_7") == Fault
    ensures Deserialize("1_x") == Fault
  {
    SplitNoDelimiter("7", DELIMITER);
    SplitAtDelimiter("3", DELIMITER, "7");
    assert "3_7" == "3" + [DELIMITER] + "7";
    ParseDecimal(3, MIN_INT, MAX_INT);
    SplitAtDelimiter("x", DELIMITER, "7");
    assert "x_7" == "x" + [DELIMITER] + "7";
    SplitNoDelimiter("x", DELIMITER);
    SplitAtDelimiter("1", DELIMITER, "x");
    assert "1_x" == "1" + [DELIMITER] + "x";
    ParseDecimal(1, MIN_INT, MAX_INT);
    assert !IsDigit('x');
  }
}
