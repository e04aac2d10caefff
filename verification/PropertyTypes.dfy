/** Custom-property values: the types a definition can declare and the check of a value against one. */
module PropertyTypes {
  import opened Prelude
  import Calendar

  datatype Json =
    | JNull
    | JBool(b: bool)
    | JNum(n: real)
    | JStr(s: string)
    | JArr(items: seq<Json>)
    | JObj(fields: map<string, Json>)

  datatype PropType = StringType | NumberType | BooleanType | EnumType | DateType | JsonType

  datatype Def = Def(propType: PropType, allowed: seq<string>, required: bool)

  type Bag = map<string, Json>

  // ---- calendar dates, YYYY-MM-DD ----

  predicate IsDigit(c: char) {
    '0' <= c <= '9'
  }

  function Number(digits: string): int {
    if digits == "" then 0
    else Number(digits[..|digits| - 1]) * 10 + (digits[|digits| - 1] as int - '0' as int)
  }

  predicate ValidDate(s: string) {
    && |s| == 10 && s[4] == '-' && s[7] == '-'
    && (forall c <- s[..4] :: IsDigit(c)) && (forall c <- s[5..7] :: IsDigit(c)) && (forall c <- s[8..] :: IsDigit(c))
    && 1 <= Number(s[5..7]) <= 12
    && 1 <= Number(s[8..]) <= Calendar.DaysIn(Number(s[..4]), Number(s[5..7]))
  }

  function Digits(n: nat, width: nat): (s: string)
    ensures |s| == width
  {
    if width == 0 then "" else Digits(n / 10, width - 1) + ['0' + (n % 10) as char]
  }

  function PowerOfTen(width: nat): nat {
    if width == 0 then 1 else 10 * PowerOfTen(width - 1)
  }

  lemma {:induction false} NumberOfDigits(n: nat, width: nat)
    requires n < PowerOfTen(width)
    ensures Number(Digits(n, width)) == n
    ensures forall c <- Digits(n, width) :: IsDigit(c)
  {
    if width > 0 {
      NumberOfDigits(n / 10, width - 1);
      var s := Digits(n, width);
      assert s[..width - 1] == Digits(n / 10, width - 1);
    }
  }

  lemma {:induction false} DigitsOfNumber(s: string)
    requires forall c <- s :: IsDigit(c)
    ensures 0 <= Number(s) < PowerOfTen(|s|) && Digits(Number(s), |s|) == s
  {
    if s != "" {
      var front, last := s[..|s| - 1], s[|s| - 1];
      assert forall c <- front :: IsDigit(c) by { assert forall c <- front :: c in s; }
      DigitsOfNumber(front);
      var d := last as int - '0' as int;
      assert IsDigit(last) && Number(s) / 10 == Number(front) && Number(s) % 10 == d;
      assert s == front + [last];
    }
  }

  function Date(year: nat, month: nat, day: nat): (s: string)
    ensures |s| == 10
  {
    Digits(year, 4) + "-" + Digits(month, 2) + "-" + Digits(day, 2)
  }

  lemma DateIsValid(year: nat, month: nat, day: nat)
    requires year <= 9999 && 1 <= month <= 12 && 1 <= day <= Calendar.DaysIn(year, month)
    ensures ValidDate(Date(year, month, day))
  {
    var s := Date(year, month, day);
    NumberOfDigits(year, 4);
    NumberOfDigits(month, 2);
    NumberOfDigits(day, 2);
    assert s[..4] == Digits(year, 4) && s[5..7] == Digits(month, 2) && s[8..] == Digits(day, 2);
  }

  lemma ValidIsDate(s: string)
    requires ValidDate(s)
    ensures 0 <= Number(s[..4]) <= 9999 && s == Date(Number(s[..4]), Number(s[5..7]), Number(s[8..]))
  {
    DigitsOfNumber(s[..4]);
    DigitsOfNumber(s[5..7]);
    DigitsOfNumber(s[8..]);
    assert s == s[..4] + [s[4]] + s[5..7] + [s[7]] + s[8..];
  }

  /** The dates accepted are the days of the calendar, years 0 to 9999, each in its one spelling. */
  lemma ValidDateIff(s: string)
    ensures ValidDate(s) <==>
            exists year: nat, month: nat, day: nat ::
              s == Date(year, month, day) && year <= 9999 && 1 <= month <= 12 && 1 <= day <= Calendar.DaysIn(year, month)
  {
    hide Date, Number, Calendar.DaysIn;
    if ValidDate(s) { ValidIsDate(s); }
    if year: nat, month: nat, day: nat :|
      s == Date(year, month, day) && year <= 9999 && 1 <= month <= 12 && 1 <= day <= Calendar.DaysIn(year, month)
    {
      DateIsValid(year, month, day);
    }
  }

  // ---- the strict check behind every write of a bag ----

  predicate ValidValue(v: Json, def: Def) {
    match def.propType
    case StringType => v.JStr?
    case NumberType => v.JNum?
    case BooleanType => v.JBool?
    case DateType => v.JStr? && ValidDate(v.s)
    case EnumType => v.JStr? && (def.allowed == [] || v.s in def.allowed)
    case JsonType => v.JObj? || v.JArr?
  }

  /** Checks one value of a bag against its definition. */
  method CheckValue(v: Json, def: Def) returns (ok: bool)
    ensures ok == ValidValue(v, def)
  {
    hide ValidDate;
    match def.propType {
      case StringType => return v.JStr?;
      case NumberType => return v.JNum?;
      case BooleanType => return v.JBool?;
      case DateType =>
        if !v.JStr? { return false; }
        return ValidDate(v.s);
      case EnumType =>
        if !v.JStr? { return false; }
        if |def.allowed| > 0 {
          var valid := false;
          for i := 0 to |def.allowed|
            invariant !valid && v.s !in def.allowed[..i]
          {
            if def.allowed[i] == v.s { return true; }
          }
          return false;
        }
        return true;
      case JsonType =>
        match v {
          case JObj(_) => return true;
          case JArr(_) => return true;
          case _ => return false;
        }
    }
  }

  /** Every key of the bag is defined and holds a value of the declared type. */
  ghost predicate Conforms(bag: Bag, defs: map<string, Def>) {
    forall key <- bag :: key in defs && ValidValue(bag[key], defs[key])
  }

  // ---- the looser check of the CSV import ----

  /** A parsed floating-point number: the parser takes `NaN` and `Inf` as well. */
  datatype Float = Finite(r: real) | NotFinite

  /** A coerced cell, which is a JSON value except for a number that is not finite. */
  datatype Coerced = Plain(json: Json) | NonFinite

  /** What the number and JSON parsers of the standard library answer. */
  datatype Parsers = Parsers(number: string -> Option<Float>, json: string -> Option<Json>, lower: string -> string)

  function CoerceCell(p: Parsers, def: Def, raw: string): Option<Coerced> {
    match def.propType
    case NumberType =>
      (match p.number(raw)
       case Some(Finite(r)) => Some(Plain(JNum(r)))
       case Some(NotFinite) => Some(NonFinite)
       case None => None)
    case BooleanType =>
      if p.lower(raw) in {"true", "1", "yes", "oui", "y", "vrai"} then Some(Plain(JBool(true)))
      else if p.lower(raw) in {"false", "0", "no", "non", "n", "faux"} then Some(Plain(JBool(false)))
      else None
    case DateType => if ValidDate(raw) then Some(Plain(JStr(raw))) else None
    case EnumType => if raw in def.allowed then Some(Plain(JStr(raw))) else None
    case JsonType => (match p.json(raw) case Some(v) => Some(Plain(v)) case None => None)
    case StringType => Some(Plain(JStr(raw)))
  }

  /** Coerces one cell of a CSV row. */
  method Coerce(p: Parsers, def: Def, raw: string) returns (c: Option<Coerced>)
    ensures c == CoerceCell(p, def, raw)
  {
    hide ValidDate;
    match def.propType {
      case NumberType =>
        var parsed := p.number(raw);
        if parsed.None? { return None; }
        return Some(if parsed.value.Finite? then Plain(JNum(parsed.value.r)) else NonFinite);
      case BooleanType =>
        var low := p.lower(raw);
        if low == "true" || low == "1" || low == "yes" || low == "oui" || low == "y" || low == "vrai" {
          return Some(Plain(JBool(true)));
        }
        if low == "false" || low == "0" || low == "no" || low == "non" || low == "n" || low == "faux" {
          return Some(Plain(JBool(false)));
        }
        return None;
      case DateType =>
        if !ValidDate(raw) { return None; }
        return Some(Plain(JStr(raw)));
      case EnumType =>
        for i := 0 to |def.allowed|
          invariant raw !in def.allowed[..i]
        {
          if def.allowed[i] == raw { return Some(Plain(JStr(raw))); }
        }
        return None;
      case JsonType =>
        var v := p.json(raw);
        if v.None? { return None; }
        return Some(Plain(v.value));
      case StringType => return Some(Plain(JStr(raw)));
    }
  }

  predicate IsScalar(v: Json) {
    !v.JArr? && !v.JObj?
  }

  /**
   A cell the import accepts is a value that passes the strict check exactly when it is neither a scalar under a
   `json` definition (there the import takes any JSON text, and the strict check only objects and arrays) nor a
   number that is not finite.
   */
  lemma CoercedConformsIff(p: Parsers, def: Def, raw: string)
    requires CoerceCell(p, def, raw).Some?
    ensures var c := CoerceCell(p, def, raw).value;
            (c.Plain? && ValidValue(c.json, def))
            <==> c.Plain? && !(def.propType.JsonType? && IsScalar(c.json))
    ensures CoerceCell(p, def, raw).value.NonFinite? ==> def.propType.NumberType?
  {
    match def.propType
    case EnumType => assert raw in def.allowed;
    case _ =>
  }

  // ---- merging into a stored bag ----

  /** The stored properties of a record: none, an object, the JSON null, or JSON that is no object. */
  datatype Data = NoData | Stored(bag: Bag) | NullData | NotABag

  type Custom = map<string, Coerced>

  predicate Serialises(custom: Custom) {
    forall key <- custom :: custom[key].Plain?
  }

  function PropsOf(custom: Custom): Bag
    requires Serialises(custom)
  {
    map key | key in custom :: custom[key].json
  }

  datatype MergeResult = Merged(bag: Bag) | MergeFails | MergePanics

  /**
   Reads the stored bag, overlays the new values and serialises the result. Reading JSON null leaves a nil map, and
   writing to that panics. Failing or panicking, it has changed nothing and the database has refused nothing.
   */
  function MergeCustomProps(data: Data, custom: Custom): MergeResult {
    if data.NotABag? then MergeFails
    else if data.NullData? && custom != map[] then MergePanics
    else if !Serialises(custom) then MergeFails
    else Merged((if data.Stored? then data.bag else map[]) + PropsOf(custom))
  }

  /** Merging an import row's properties into a conforming bag conforms exactly when each of them does. */
  lemma MergeConformsIff(bag: Bag, custom: Custom, defs: map<string, Def>)
    requires Conforms(bag, defs) && Serialises(custom)
    ensures var merged := MergeCustomProps(Stored(bag), custom);
            merged.Merged? && (Conforms(merged.bag, defs) <==> Conforms(PropsOf(custom), defs))
  {
    var props := PropsOf(custom);
    if Conforms(bag + props, defs) {
      forall key | key in props ensures key in defs && ValidValue(props[key], defs[key]) {
        assert key in bag + props && (bag + props)[key] == props[key];
      }
    }
  }

  lemma ScalarImportBreaksConformity()
    ensures var p := Parsers(_ => None, _ => Some(JNum(5.0)), s => s);
            var def := Def(JsonType, [], false);
            CoerceCell(p, def, "5") == Some(Plain(JNum(5.0))) && !ValidValue(JNum(5.0), def)
  {}
}
