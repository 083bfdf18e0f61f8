/**
 * milanuncios/utils.py: reading a number and a time unit out of the short
 * Spanish texts the site shows ("4 horas", "2 días", "30 seg"). Durations are
 * integer seconds, the value `datetime.timedelta` holds.
 */
module Utils {
  import opened Wrappers
  import opened Strings

  // ------------------------------------------------------- extract_number

  /** The digit characters of `s`, in order. */
  function DigitsOf(s: string): (ds: string)
    ensures AllDigits(ds) && |ds| <= |s|
  {
    if s == [] then []
    else DigitsOf(s[..|s| - 1]) + (if IsDigit(s[|s| - 1]) then [s[|s| - 1]] else [])
  }

  /** Python `int(ds)` on a string of digits: the empty string is a ValueError. */
  function ParseInt(ds: string): Result<int, Error>
    requires AllDigits(ds)
  {
    if ds == [] then Failure(NoDigits) else Success(DecimalValue(ds))
  }

  /** extract_number(string, int): keeps each digit of `s` and converts the result with `int`. */
  method ExtractNumber(s: string) returns (r: Result<int, Error>)
    ensures r == ParseInt(DigitsOf(s))
    ensures r.Failure? <==> forall i :: 0 <= i < |s| ==> !IsDigit(s[i])
    ensures r.Success? ==> r.value >= 0
  {
    var response := "";
    for i := 0 to |s|
      invariant response == DigitsOf(s[..i])
    {
      assert s[..i + 1][..i] == s[..i];
      if IsDigit(s[i]) {
        response := response + [s[i]];
      }
    }
    assert s[..|s|] == s;
    DigitsOfEmpty(s);
    r := ParseInt(response);
  }

  /** The digits of a text are empty exactly when the text holds no digit. */
  lemma {:induction false} DigitsOfEmpty(s: string)
    ensures DigitsOf(s) == [] <==> forall i :: 0 <= i < |s| ==> !IsDigit(s[i])
  {
    if s != [] {
      var init := s[..|s| - 1];
      DigitsOfEmpty(init);
      assert forall i :: 0 <= i < |init| ==> init[i] == s[i];
    }
  }

  /** Extracting digits distributes over concatenation. */
  lemma {:induction false} DigitsOfAppend(a: string, b: string)
    ensures DigitsOf(a + b) == DigitsOf(a) + DigitsOf(b)
  {
    if b != [] {
      var b' := b[..|b| - 1];
      assert (a + b)[..|a + b| - 1] == a + b';
      DigitsOfAppend(a, b');
    } else {
      assert a + b == a;
    }
  }

  /** A text made of digits only is its own digit string. */
  lemma {:induction false} DigitsOfAllDigits(s: string)
    requires AllDigits(s)
    ensures DigitsOf(s) == s
  {
    if s != [] {
      DigitsOfAllDigits(s[..|s| - 1]);
    }
  }

  /** Each digit character occurs in the extracted number as often as in the text; nothing else occurs in it. */
  lemma {:induction false} DigitsOfCounts(s: string, c: char)
    ensures multiset(DigitsOf(s))[c] == if IsDigit(c) then multiset(s)[c] else 0
  {
    if s != [] {
      var init := s[..|s| - 1];
      DigitsOfCounts(init, c);
      assert s == init + [s[|s| - 1]];
    }
  }

  // -------------------------------------------- parse_string_to_timedelta

  datatype Unit = Hours | Days | Seconds | Minutes

  function UnitSeconds(u: Unit): nat {
    match u
    case Hours => 3600
    case Days => 86400
    case Seconds => 1
    case Minutes => 60
  }

  /** `string_mapping`, in the order its items are iterated. */
  const UnitTable: seq<(string, Unit)> := [
    ("horas", Hours), ("hora", Hours), ("días", Days), ("día", Days),
    ("dia", Days), ("dias", Days), ("seg", Seconds), ("min", Minutes)]

  /** The unit of the first entry of `table` whose keyword occurs in `s`. */
  function FirstMatch(table: seq<(string, Unit)>, s: string): Option<Unit> {
    if table == [] then None
    else if Contains(s, table[0].0) then Some(table[0].1)
    else FirstMatch(table[1..], s)
  }

  /** What parse_string_to_timedelta computes: the number of the text, in the unit its keywords name. */
  function Duration(s: string): Result<int, Error> {
    match ParseInt(DigitsOf(s))
    case Failure(e) => Failure(e)
    case Success(num) =>
      match FirstMatch(UnitTable, s)
      case None => Failure(UnknownUnit)
      case Some(u) => Success(num * UnitSeconds(u))
  }

  /** parse_string_to_timedelta: the number first (its ValueError wins), then the first keyword in table order. */
  method ParseStringToTimedelta(s: string) returns (r: Result<int, Error>)
    ensures r == Duration(s)
  {
    var num := ExtractNumber(s);
    if num.Failure? {
      return Failure(num.error);
    }
    var arg: Option<Unit> := None;
    var i := 0;
    while i < |UnitTable|
      invariant 0 <= i <= |UnitTable|
      invariant arg == None
      invariant FirstMatch(UnitTable[i..], s) == FirstMatch(UnitTable, s)
    {
      var (inp, outp) := UnitTable[i];
      assert UnitTable[i..][1..] == UnitTable[i + 1..];
      if Contains(s, inp) {
        arg := Some(outp);
        break;
      }
      i := i + 1;
    }
    if arg == None {
      return Failure(UnknownUnit);
    }
    r := Success(num.value * UnitSeconds(arg.value));
  }

  /**
   * The unit chosen for a text: an hour word beats a day word, which beats
   * "seg", which beats "min"; plural and accented spellings are covered by
   * the singular, unaccented ones.
   */
  lemma UnitPriority(s: string)
    ensures FirstMatch(UnitTable, s) ==
      if Contains(s, "hora") then Some(Hours)
      else if Contains(s, "día") || Contains(s, "dia") then Some(Days)
      else if Contains(s, "seg") then Some(Seconds)
      else if Contains(s, "min") then Some(Minutes)
      else None
  {
    assert "horas" == "hora" + "s" && "días" == "día" + "s" && "dias" == "dia" + "s";
    if Contains(s, "horas") { ContainsPrefix(s, "hora", "s"); }
    if Contains(s, "días") { ContainsPrefix(s, "día", "s"); }
    if Contains(s, "dias") { ContainsPrefix(s, "dia", "s"); }
    TableInOrder(s);
  }

  /** The table read entry by entry. */
  lemma TableInOrder(s: string)
    ensures FirstMatch(UnitTable, s) ==
      if Contains(s, "horas") then Some(Hours)
      else if Contains(s, "hora") then Some(Hours)
      else if Contains(s, "días") then Some(Days)
      else if Contains(s, "día") then Some(Days)
      else if Contains(s, "dia") then Some(Days)
      else if Contains(s, "dias") then Some(Days)
      else if Contains(s, "seg") then Some(Seconds)
      else if Contains(s, "min") then Some(Minutes)
      else None
  {
    var t := UnitTable;
    assert FirstMatch(t[4..], s) == if Contains(s, "dia") then Some(Days) else FirstMatch(t[5..], s);
    assert FirstMatch(t[5..], s) == if Contains(s, "dias") then Some(Days) else FirstMatch(t[6..], s);
    assert FirstMatch(t[6..], s) == if Contains(s, "seg") then Some(Seconds) else FirstMatch(t[7..], s);
    assert FirstMatch(t[7..], s) == if Contains(s, "min") then Some(Minutes) else FirstMatch(t[8..], s);
    TableHead(s);
  }

  /** The first four entries of the table. */
  lemma TableHead(s: string)
    ensures FirstMatch(UnitTable, s) ==
      if Contains(s, "horas") then Some(Hours)
      else if Contains(s, "hora") then Some(Hours)
      else if Contains(s, "días") then Some(Days)
      else if Contains(s, "día") then Some(Days)
      else FirstMatch(UnitTable[4..], s)
  {
    var t := UnitTable;
    assert FirstMatch(t, s) == if Contains(s, "horas") then Some(Hours) else FirstMatch(t[1..], s);
    assert FirstMatch(t[1..], s) == if Contains(s, "hora") then Some(Hours) else FirstMatch(t[2..], s);
    assert FirstMatch(t[2..], s) == if Contains(s, "días") then Some(Days) else FirstMatch(t[3..], s);
    assert FirstMatch(t[3..], s) == if Contains(s, "día") then Some(Days) else FirstMatch(t[4..], s);
  }

  /** A word found at some index is contained in the text. */
  lemma OccursIn(s: string, k: string, i: nat)
    requires i + |k| <= |s| && s[i..i + |k|] == k
    ensures Contains(s, k)
  {
    assert OccursAt(s, k, i);
  }

  /** A letter that is not a digit and is absent from `t` is absent from digits + `t`. */
  lemma LetterAbsent(digits: string, t: string, c: char)
    requires AllDigits(digits) && !IsDigit(c) && c !in t
    ensures c !in digits + t
  {
  }

  /** The number read from a decimal spelling followed by digit-free text. */
  lemma NumberPart(n: nat, t: string)
    requires forall j :: 0 <= j < |t| ==> !IsDigit(t[j])
    ensures ParseInt(DigitsOf(NatToString(n) + t)) == Success(n)
  {
    var ds := NatToString(n);
    DigitsOfEmpty(t);
    assert DigitsOf(t) == [];
    DigitsOfAppend(ds, t);
    DigitsOfAllDigits(ds);
    assert DigitsOf(ds + t) == ds;
    DecimalValueOfNatToString(n);
    assert DecimalValue(ds) == n;
  }

  /** After digits and a space, a word starting with "hora" reads as hours. */
  lemma HoursPart(digits: string, kw: string)
    requires AllDigits(digits) && |kw| >= 4 && kw[..4] == "hora"
    ensures FirstMatch(UnitTable, digits + " " + kw) == Some(Hours)
  {
    var s := digits + " " + kw;
    var at := |digits| + 1;
    assert s[at..at + 4] == kw[..4];
    OccursIn(s, "hora", at);
    UnitPriority(s);
  }

  /** After digits and a space, a word starting with "día" or "dia" and without an h reads as days. */
  lemma DaysPart(digits: string, kw: string)
    requires AllDigits(digits) && |kw| >= 3 && (kw[..3] == "día" || kw[..3] == "dia") && 'h' !in kw
    ensures FirstMatch(UnitTable, digits + " " + kw) == Some(Days)
  {
    var s := digits + " " + kw;
    var at := |digits| + 1;
    assert s[at..at + 3] == kw[..3];
    var tail := " " + kw;
    assert s == digits + tail;
    assert 'h' !in tail by {
      assert forall j :: 1 <= j < |tail| ==> tail[j] == kw[j - 1];
    }
    LetterAbsent(digits, tail, 'h');
    NotContainsFirstChar(s, "hora");
    if kw[..3] == "día" {
      OccursIn(s, "día", at);
    } else {
      OccursIn(s, "dia", at);
    }
    UnitPriority(s);
  }

  /** After digits and a space, "seg" reads as seconds. */
  lemma SecondsPart(digits: string)
    requires AllDigits(digits)
    ensures FirstMatch(UnitTable, digits + " " + "seg") == Some(Seconds)
  {
    var s := digits + " " + "seg";
    assert s == digits + " seg";
    LetterAbsent(digits, " seg", 'h');
    LetterAbsent(digits, " seg", 'd');
    NotContainsFirstChar(s, "hora");
    NotContainsFirstChar(s, "día");
    NotContainsFirstChar(s, "dia");
    OccursIn(s, "seg", |digits| + 1);
    UnitPriority(s);
  }

  /** After digits and a space, "min" reads as minutes. */
  lemma MinutesPart(digits: string)
    requires AllDigits(digits)
    ensures FirstMatch(UnitTable, digits + " " + "min") == Some(Minutes)
  {
    var s := digits + " " + "min";
    assert s == digits + " min";
    LetterAbsent(digits, " min", 'h');
    LetterAbsent(digits, " min", 'd');
    LetterAbsent(digits, " min", 's');
    NotContainsFirstChar(s, "hora");
    NotContainsFirstChar(s, "día");
    NotContainsFirstChar(s, "dia");
    NotContainsFirstChar(s, "seg");
    OccursIn(s, "min", |digits| + 1);
    UnitPriority(s);
  }

  /**
   * Round trip: a number written in decimal followed by a space and any
   * keyword of the table reads back as that many units of the keyword's kind;
   * so "4 horas" is 4 hours, and every spelling of a unit gives that unit.
   */
  lemma DurationOfNumberAndKeyword(n: nat, i: nat)
    requires i < |UnitTable|
    ensures Duration(NatToString(n) + " " + UnitTable[i].0) == Success(n * UnitSeconds(UnitTable[i].1))
  {
    var (kw, u) := UnitTable[i];
    assert forall j :: 0 <= j < |" " + kw| ==> !IsDigit((" " + kw)[j]);
    assert NatToString(n) + " " + kw == NatToString(n) + (" " + kw);
    NumberPart(n, " " + kw);
    var ds := NatToString(n);
    if i <= 1 {
      HoursPart(ds, kw);
    } else if i <= 5 {
      DaysPart(ds, kw);
    } else if i == 6 {
      SecondsPart(ds);
    } else {
      MinutesPart(ds);
    }
  }

  /** The docstring's example: "4 horas" is four hours. */
  lemma FourHours()
    ensures Duration("4 horas") == Success(4 * 3600)
  {
    DurationOfNumberAndKeyword(4, 0);
    assert NatToString(4) + " " + "horas" == "4 horas";
  }

  /** extract_number keeps digits from anywhere in the text: "1 hora 30 min" gives "130". */
  lemma DigitsOfHourAndMinutes()
    ensures DigitsOf("1 hora 30 min") == "130"
  {
    var a, b := "1 hora ", "30 min";
    assert "1 hora 30 min" == a + b;
    DigitsOfAppend(a, b);
    assert a == "1" + " hora ";
    DigitsOfNumberThenWord("1", " hora ");
    assert b == "30" + " min";
    DigitsOfNumberThenWord("30", " min");
  }

  /** A number followed by text without digits gives back the number. */
  lemma DigitsOfNumberThenWord(n: string, w: string)
    requires AllDigits(n) && forall j :: 0 <= j < |w| ==> !IsDigit(w[j])
    ensures DigitsOf(n + w) == n
  {
    DigitsOfAppend(n, w);
    DigitsOfAllDigits(n);
    DigitsOfEmpty(w);
  }

  /** "1 hora 30 min" reads as 130 hours: every digit is kept and the hour keyword wins over "min". */
  lemma HourAndMinutes()
    ensures Duration("1 hora 30 min") == Success(130 * 3600)
  {
    DigitsOfHourAndMinutes();
    assert DecimalValue("1") == 1;
    assert "130"[..2] == "13" && "13"[..1] == "1";
    assert DecimalValue("13") == 13;
    assert DecimalValue("130") == 130;
    assert "1 hora 30 min" == "1" + " " + "hora 30 min";
    HoursPart("1", "hora 30 min");
  }

  /** The two ways parse_string_to_timedelta fails, and that a success is never negative. */
  lemma DurationErrors(s: string)
    ensures Duration(s) == Failure(NoDigits) <==> forall i :: 0 <= i < |s| ==> !IsDigit(s[i])
    ensures Duration(s) == Failure(UnknownUnit) <==>
      (exists i :: 0 <= i < |s| && IsDigit(s[i])) && forall e :: e in UnitTable ==> !Contains(s, e.0)
    ensures Duration(s).Success? ==> Duration(s).value >= 0
  {
    DigitsOfEmpty(s);
    NoKeywordNoMatch(UnitTable, s);
  }

  /** The table scan finds nothing exactly when no keyword of the table occurs. */
  lemma {:induction false} NoKeywordNoMatch(table: seq<(string, Unit)>, s: string)
    ensures FirstMatch(table, s) == None <==> forall e :: e in table ==> !Contains(s, e.0)
  {
    if table != [] {
      NoKeywordNoMatch(table[1..], s);
      assert forall e :: e in table <==> e == table[0] || e in table[1..];
    }
  }
}
