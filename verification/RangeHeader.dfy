/** Range headers: parsing in src/proxy/request_handler.cpp, printing in
    src/storage/s3_client.cpp. */
module RangeHeader {
  import opened Base
  import opened Text

  /** Inclusive byte positions. */
  datatype Span = Span(first: nat, last: nat)

  const PREFIX := "bytes="

  /** `parse_range_header`; `None` is an invalid range. */
  function ParseRange(header: string, size: nat): (r: Option<Span>)
    ensures r.Some? ==> r.value.first <= r.value.last < size
  {
    if size == 0 || !(PREFIX <= header) then None
    else
      var whole := header[|PREFIX|..];
      var spec := whole[..FindChar(whole, ',')];
      var dash := FindChar(spec, '-');
      if dash == |spec| then None else ByFields(spec[..dash], spec[dash + 1..], size)
  }

  /** The range the two fields around the dash stand for. */
  function ByFields(from: string, to: string, size: nat): (r: Option<Span>)
    requires size > 0
    ensures r.Some? ==> r.value.first <= r.value.last < size
  {
    if from == "" then
      match Stoull(to, 10)
      case None => None
      case Some(n) => if n == 0 then None else Some(Span(size - Min(n, size), size - 1))
    else
      match Stoull(from, 10)
      case None => None
      case Some(a) =>
        if to == "" then
          if a >= size then None else Some(Span(a, size - 1))
        else
          match Stoull(to, 10)
          case None => None
          case Some(b) =>
            var last := Min(b, size - 1);
            if a >= size || a > last then None else Some(Span(a, last))
  }

  // ------------------------------------- section 14.1.2 of RFC 9110 as a reference

  datatype Spec = Closed(first: nat, last: nat) | Open(first: nat) | Suffix(length: nat)

  /** The bytes a range-spec selects from a representation; `None` when the spec
      is invalid or unsatisfiable. */
  function Select(spec: Spec, size: nat): Option<Span> {
    match spec
    case Closed(a, b) => if a <= b && a < size then Some(Span(a, Min(b, size - 1))) else None
    case Open(a) => if a < size then Some(Span(a, size - 1)) else None
    case Suffix(n) => if n > 0 && size > 0 then Some(Span(Max(0, size - n), size - 1)) else None
  }

  ghost predicate Numeral(s: string) {
    IsNumeral(s, 10)
  }

  /** The two fields of a range-spec: digits, or nothing on one side. */
  ghost predicate Fields(from: string, to: string) {
    (Numeral(from) && (Numeral(to) || to == "")) || (from == "" && Numeral(to))
  }

  ghost function SpecOf(from: string, to: string): Spec
    requires Fields(from, to)
  {
    if from == "" then Suffix(Value(to, 10))
    else if to == "" then Open(Value(from, 10))
    else Closed(Value(from, 10), Value(to, 10))
  }

  /** The fields of a header, whatever further ranges follow the first. */
  lemma HeaderFields(from: string, to: string, more: string)
    requires '-' !in from && ',' !in from && ',' !in to && (more == "" || more[0] == ',')
    ensures var header := PREFIX + from + "-" + to + more;
            && PREFIX <= header
            && var whole := header[|PREFIX|..];
               var spec := whole[..FindChar(whole, ',')];
               spec == from + "-" + to && FindChar(spec, '-') == |from|
  {
    var spec := from + "-" + to;
    Unprefixed(PREFIX, from, to, more);
    FindCharAt(spec, ',', more);
    assert spec == from + ("-" + to);
    FindCharAt(from, '-', "-" + to);
    hide FindChar;
  }

  lemma Unprefixed(p: string, from: string, to: string, more: string)
    ensures var header, spec := p + from + "-" + to + more, from + "-" + to;
            p <= header && header[|p|..] == spec + more && (spec + more)[..|spec|] == spec
  {
    assert p + from + "-" + to + more == p + (from + "-" + to + more);
  }

  lemma SpecParts(a: string, b: string)
    ensures (a + "-" + b)[..|a|] == a && (a + "-" + b)[|a| + 1..] == b && |a + "-" + b| > |a|
  {
  }

  lemma ParseFields(from: string, to: string, more: string, size: nat)
    requires '-' !in from && ',' !in from && ',' !in to && (more == "" || more[0] == ',')
    ensures ParseRange(PREFIX + from + "-" + to + more, size) == if size == 0 then None else ByFields(from, to, size)
  {
    hide FindChar, ByFields;
    HeaderFields(from, to, more);
    SpecParts(from, to);
  }

  lemma NumeralPlain(s: string)
    requires s == "" || Numeral(s)
    ensures '-' !in s && ',' !in s
  {
    assert forall i :: 0 <= i < |s| ==> DigitValue(s[i]) < 10;
  }

  /** For every range-spec in decimal digits, of any length, the parser selects
      exactly the bytes the standard prescribes, unless the last position (or the
      suffix length) of a satisfiable spec does not fit 64 bits. */
  lemma ParseConforms(from: string, to: string, more: string, size: nat)
    requires Fields(from, to) && (more == "" || more[0] == ',') && size < TWO64
    ensures ParseRange(PREFIX + from + "-" + to + more, size) == Select(SpecOf(from, to), size)
            <==> (to != "" && Value(to, 10) >= TWO64 ==> Select(SpecOf(from, to), size) == None)
  {
    NumeralPlain(from);
    NumeralPlain(to);
    hide Value, Stoull, ParseRange, ByFields, IsNumeral, Select, SpecOf;
    ParseFields(from, to, more, size);
    FieldsConform(from, to, size);
  }

  lemma FieldsConform(from: string, to: string, size: nat)
    requires Fields(from, to) && size < TWO64
    ensures (if size == 0 then None else ByFields(from, to, size)) == Select(SpecOf(from, to), size)
            <==> (to != "" && Value(to, 10) >= TWO64 ==> Select(SpecOf(from, to), size) == None)
  {
    hide Value, Stoull;
    if from != "" { StoullNumeral(from); }
    if to != "" { StoullNumeral(to); }
    assert from == "" ==> to != "";
    hide IsNumeral;
  }

  /** Text that is no part of the number before it, as `stoull` leaves unread. */
  ghost predicate Trailing(junk: string) {
    '-' !in junk && ',' !in junk && (junk == "" || DigitValue(junk[0]) >= 10)
  }

  lemma StoullTrailing(a: string, junk: string)
    requires Numeral(a) && Trailing(junk)
    ensures Stoull(a + junk, 10) == Stoull(a, 10)
  {
    ParseNumeral(a, junk, 10);
    StoullNumeral(a);
    hide Value;
  }

  /** Text after a number changes nothing: such a header is taken for the one
      without it. */
  lemma TrailingTextIgnored(from: string, junk: string, to: string, junk': string, size: nat)
    requires Numeral(from) && Numeral(to) && Trailing(junk) && Trailing(junk')
    ensures ParseRange(PREFIX + (from + junk) + "-" + (to + junk') + "", size) == ParseRange(PREFIX + from + "-" + to + "", size)
  {
    NumeralPlain(from);
    NumeralPlain(to);
    StoullTrailing(from, junk);
    StoullTrailing(to, junk');
    hide Value, Stoull, ParseRange;
    ParseFields(from, to, "", size);
    ParseFields(from + junk, to + junk', "", size);
  }

  // ------------------------------------------------------- printing, get_object

  /** The Range header `get_object` sends; `None` sends no header. */
  function PrintRange(offset: nat, length: nat): Option<string> {
    if offset > 0 || length > 0 then
      Some(PREFIX + Dec(offset) + if length > 0 then "-" + Dec(offset + length - 1) else "")
    else None
  }

  /** The header printed for a chunk reads back as exactly that chunk's bytes,
      both by this parser and by the standard. */
  lemma PrintedRangeReadsBack(offset: nat, want: nat, size: nat)
    requires want > 0 && offset + want <= size < TWO64
    ensures PrintRange(offset, want).Some?
    ensures ParseRange(PrintRange(offset, want).value, size) == Some(Span(offset, offset + want - 1))
    ensures Fields(Dec(offset), Dec(offset + want - 1))
    ensures Select(SpecOf(Dec(offset), Dec(offset + want - 1)), size) == Some(Span(offset, offset + want - 1))
  {
    var last := offset + want - 1;
    DecValue(offset);
    DecValue(last);
    ParseConforms(Dec(offset), Dec(last), "", size);
    assert PREFIX + Dec(offset) + ("-" + Dec(last)) == PREFIX + Dec(offset) + "-" + Dec(last) + "";
  }

  /** Headers as they are spelled. */
  lemma RangeSpelled()
    ensures ParseRange("bytes=2-4", 10) == Some(Span(2, 4))
  {
    assert PREFIX + "2" + "-" + "4" + "" == "bytes=2-4";
    hide ParseRange, Select, FindChar, Stoull;
    SmallNumerals();
    ParseConforms("2", "4", "", 10);
    SelectSmall();
  }

  lemma SmallNumerals()
    ensures IsNumeral("2", 10) && IsNumeral("4", 10) && Value("2", 10) == 2 && Value("4", 10) == 4
  {
    assert "2"[..0] == "" && "4"[..0] == "";
  }

  lemma SelectSmall()
    ensures Select(Closed(2, 4), 10) == Some(Span(2, 4))
  {
  }

  lemma OtherUnitsRefused(header: string, size: nat)
    requires |header| < 6 || header[..6] != "bytes="
    ensures ParseRange(header, size) == None
  {
    hide FindChar, ByFields;
    assert PREFIX <= header <==> |header| >= 6 && header[..6] == "bytes=";
  }
}
