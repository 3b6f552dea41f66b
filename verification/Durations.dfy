/**
 Durations as deadlines spell them: the grammar that reads one, the spelling an overdue step is shown in, and their
 round trip.
 */
module Durations {
  import opened Text
  import opened Decimal

  /** A unit's letter and its seconds, in the one order a duration may use them. */
  function Units(): seq<(char, nat)> {
    [('d', 86400), ('h', 3600), ('m', 60), ('s', 1)]
  }

  function Weigh(amount: nat, seconds: nat): nat {
    amount * seconds
  }

  /** The seconds of some `<n><unit>` pairs, each unit at most once and in order. */
  function ReadPairs(s: string, units: seq<(char, nat)>): Option<nat>
    decreases |units|
  {
    if s == "" then Some(0)
    else if units == [] then None
    else
      var k := Leading(s);
      if k == 0 || k == |s| then None
      else if s[k] == units[0].0 then
        match ReadPairs(s[k + 1..], units[1..])
        case None => None
        case Some(rest) => Some(Weigh(Read(s[..k]), units[0].1) + rest)
      else ReadPairs(s, units[1..])
  }

  /** A duration's seconds; the empty text is none. */
  function ParseDuration(s: string): Option<nat> {
    if s == "" then None else ReadPairs(s, Units())
  }

  function Part(amount: nat, unit: char): string {
    if amount == 0 then "" else Print(amount) + [unit]
  }

  /** The amounts that are not zero, largest unit first. */
  function Render(d: nat, h: nat, m: nat, s: nat): string {
    Part(d, 'd') + (Part(h, 'h') + (Part(m, 'm') + Part(s, 's')))
  }

  /** `format_overdue` of a span of whole seconds; one not positive is shown as none. */
  function FormatOverdue(span: int): string {
    var n := if span < 0 then 0 else span;
    var text := Render(n / 86400, n % 86400 / 3600, n % 3600 / 60, n % 60);
    if text == "" then "0s" else text
  }

  function Total(d: nat, h: nat, m: nat, s: nat): nat {
    d * 86400 + h * 3600 + m * 60 + s
  }

  // --- the round trip ---

  lemma DigitsRead(digits: string, unit: char, seconds: nat, rest: string, units: seq<(char, nat)>)
    requires digits != "" && Leading(digits + ([unit] + rest)) == |digits| && AllDigits(digits)
    requires units != [] && units[0] == (unit, seconds) && ReadPairs(rest, units[1..]).Some?
    ensures ReadPairs(digits + ([unit] + rest), units)
      == Some(Weigh(Read(digits), seconds) + ReadPairs(rest, units[1..]).value)
  {
    hide Read, Leading, Weigh, ReadPairs;
    var s := digits + ([unit] + rest);
    assert s[|digits|] == unit && s[|digits| + 1..] == rest && s[..|digits|] == digits;
    FirstPair(s, |digits|, units);
  }

  /** One unit read, and what follows it. */
  lemma FirstPair(s: string, k: nat, units: seq<(char, nat)>)
    requires units != [] && k == Leading(s) && 0 < k < |s| && s[k] == units[0].0
    ensures ReadPairs(s, units)
      == match ReadPairs(s[k + 1..], units[1..])
         case None => None
         case Some(rest) => Some(Weigh(Read(s[..k]), units[0].1) + rest)
  {
    hide Read, Leading, Weigh;
  }

  lemma ReadPart(amount: nat, unit: char, seconds: nat, rest: string, units: seq<(char, nat)>)
    requires amount > 0 && unit in {'d', 'h', 'm', 's'} && units != [] && units[0] == (unit, seconds)
    requires ReadPairs(rest, units[1..]).Some?
    ensures ReadPairs(Part(amount, unit) + rest, units)
      == Some(Weigh(amount, seconds) + ReadPairs(rest, units[1..]).value)
  {
    hide Print, Read, ReadPairs, Leading, Weigh;
    var digits := Print(amount);
    assert Part(amount, unit) + rest == digits + ([unit] + rest);
    LeadingOfDigits(digits, [unit] + rest);
    ReadOfPrint(amount);
    DigitsRead(digits, unit, seconds, rest, units);
  }

  /** What a later unit opens with is skipped by an earlier one. */
  lemma SkipUnit(s: string, units: seq<(char, nat)>)
    requires units != [] && ReadPairs(s, units[1..]).Some?
    requires s == "" || (0 < Leading(s) < |s| && s[Leading(s)] != units[0].0)
    ensures ReadPairs(s, units) == ReadPairs(s, units[1..])
  {
  }

  /** A rendered amount opens with its own unit. */
  lemma PartOpens(amount: nat, unit: char, rest: string)
    requires amount > 0 && unit in {'d', 'h', 'm', 's'}
    ensures var s := Part(amount, unit) + rest; 0 < Leading(s) < |s| && s[Leading(s)] == unit
  {
    hide Print;
    var digits := Print(amount);
    var s := Part(amount, unit) + rest;
    assert s == digits + ([unit] + rest);
    LeadingOfDigits(digits, [unit] + rest);
  }

  /** The text is empty or opens with an amount of one of these units. */
  predicate OpensWith(s: string, among: set<char>) {
    s == "" || (0 < Leading(s) < |s| && s[Leading(s)] in among)
  }

  lemma RenderTail(amount: nat, unit: char, seconds: nat, rest: string, units: seq<(char, nat)>, among: set<char>)
    requires unit in {'d', 'h', 'm', 's'} && units != [] && units[0] == (unit, seconds) && unit !in among
    requires ReadPairs(rest, units[1..]).Some? && OpensWith(rest, among)
    ensures ReadPairs(Part(amount, unit) + rest, units)
      == Some(Weigh(amount, seconds) + ReadPairs(rest, units[1..]).value)
    ensures OpensWith(Part(amount, unit) + rest, among + {unit})
  {
    hide ReadPairs, Leading;
    if amount > 0 {
      ReadPart(amount, unit, seconds, rest, units);
      PartOpens(amount, unit, rest);
    } else {
      assert Part(amount, unit) + rest == rest;
      SkipUnit(rest, units);
    }
  }

  lemma RenderSeconds(s: nat)
    ensures ReadPairs(Part(s, 's'), [('s', 1)]) == Some(s) && OpensWith(Part(s, 's'), {'s'})
  {
    assert ReadPairs("", [('s', 1)][1..]) == Some(0);
    hide ReadPairs, Leading, Part;
    RenderTail(s, 's', 1, "", [('s', 1)], {});
    assert Part(s, 's') + "" == Part(s, 's') && {} + {'s'} == {'s'};
  }

  lemma RenderMinutes(m: nat, s: nat)
    ensures var text := Part(m, 'm') + Part(s, 's');
      ReadPairs(text, [('m', 60), ('s', 1)]) == Some(m * 60 + s) && OpensWith(text, {'s', 'm'})
  {
    hide ReadPairs, Leading, Part, OpensWith;
    RenderSeconds(s);
    assert [('m', 60), ('s', 1)][1..] == [('s', 1)];
    RenderTail(m, 'm', 60, Part(s, 's'), [('m', 60), ('s', 1)], {'s'});
    assert {'s'} + {'m'} == {'s', 'm'};
  }

  lemma RenderHours(h: nat, m: nat, s: nat)
    ensures var text := Part(h, 'h') + (Part(m, 'm') + Part(s, 's'));
      ReadPairs(text, [('h', 3600), ('m', 60), ('s', 1)]) == Some(h * 3600 + m * 60 + s)
        && OpensWith(text, {'s', 'm', 'h'})
  {
    hide ReadPairs, Leading, Part, OpensWith;
    RenderMinutes(m, s);
    assert [('h', 3600), ('m', 60), ('s', 1)][1..] == [('m', 60), ('s', 1)];
    RenderTail(h, 'h', 3600, Part(m, 'm') + Part(s, 's'), [('h', 3600), ('m', 60), ('s', 1)], {'s', 'm'});
    assert {'s', 'm'} + {'h'} == {'s', 'm', 'h'};
  }

  /** Any amounts at all, carried or not, read back to their sum. */
  lemma ReadOfRender(d: nat, h: nat, m: nat, s: nat)
    ensures ReadPairs(Render(d, h, m, s), Units()) == Some(Total(d, h, m, s))
  {
    hide ReadPairs, Leading, Part, OpensWith;
    RenderHours(h, m, s);
    assert Units()[1..] == [('h', 3600), ('m', 60), ('s', 1)];
    RenderTail(d, 'd', 86400, Part(h, 'h') + (Part(m, 'm') + Part(s, 's')), Units(), {'s', 'm', 'h'});
  }

  lemma MixedRadix(n: nat)
    ensures Total(n / 86400, n % 86400 / 3600, n % 3600 / 60, n % 60) == n
    ensures n % 86400 / 3600 < 24 && n % 3600 / 60 < 60
  {
    var d, r := n / 86400, n % 86400;
    var h, q := r / 3600, r % 3600;
    var m, s := q / 60, q % 60;
    assert Total(d, h, m, s) == n && h < 24 && m < 60;
    Radix(d, h, m, s);
  }

  lemma ByDay(d: nat, rest: nat)
    requires rest < 86400
    ensures (d * 86400 + rest) / 86400 == d && (d * 86400 + rest) % 86400 == rest
  {
  }

  lemma ByHour(h: nat, rest: nat)
    requires rest < 3600
    ensures (h * 3600 + rest) / 3600 == h && (h * 3600 + rest) % 3600 == rest
  {
  }

  lemma ByMinute(m: nat, rest: nat)
    requires rest < 60
    ensures (m * 60 + rest) / 60 == m && (m * 60 + rest) % 60 == rest
  {
  }

  /** The three divisions of a mixed-radix sum give its amounts back. */
  lemma Radix(d: nat, h: nat, m: nat, s: nat)
    requires h < 24 && m < 60 && s < 60
    ensures var n := Total(d, h, m, s); n / 86400 == d && n % 86400 / 3600 == h && n % 3600 / 60 == m && n % 60 == s
  {
    ByDay(d, h * 3600 + m * 60 + s);
    ByHour(h, m * 60 + s);
    ByHour(d * 24 + h, m * 60 + s);
    ByMinute(m, s);
    ByMinute(d * 1440 + h * 60 + m, s);
    assert Total(d, h, m, s) == d * 86400 + (h * 3600 + m * 60 + s);
    assert Total(d, h, m, s) == (d * 24 + h) * 3600 + (m * 60 + s);
    assert Total(d, h, m, s) == (d * 1440 + h * 60 + m) * 60 + s;
  }

  lemma EmptyRender(d: nat, h: nat, m: nat, s: nat)
    ensures Render(d, h, m, s) == "" <==> d == h == m == s == 0
  {
    hide Print;
  }

  /** Main result: what an overdue span is shown as, the duration grammar reads back to the same number of seconds. */
  lemma ParseOfFormat(n: nat)
    ensures ParseDuration(FormatOverdue(n)) == Some(n)
  {
    hide Render, ReadPairs, Units, Total;
    var d, h, m, s := n / 86400, n % 86400 / 3600, n % 3600 / 60, n % 60;
    MixedRadix(n);
    EmptyRender(d, h, m, s);
    ReadOfRender(d, h, m, s);
    if Render(d, h, m, s) == "" {
      assert Total(0, 0, 0, 0) == 0 by { NoTime(); }
      ZeroReads();
    }
  }

  lemma NoTime()
    ensures Total(0, 0, 0, 0) == 0
  {
  }

  lemma ZeroReads()
    ensures ReadPairs("0s", Units()) == Some(0)
  {
    var s := "0s";
    assert Leading(s[1..]) == 0 && Leading(s) == 1 && s[1] == 's' && s[2..] == "" && s[..1] == "0";
    assert Read("0"[..0]) == 0 && Read("0") == 0;
    var units := Units();
    assert units[1..][1..][1..][0] == ('s', 1) && units[1..][1..][0].0 == 'm' && units[1..][0].0 == 'h'
      && units[0].0 == 'd';
    assert ReadPairs("", units[1..][1..][1..][1..]) == Some(0);
    assert ReadPairs(s, units[1..][1..][1..]) == Some(0);
    assert ReadPairs(s, units[1..][1..]) == Some(0);
    assert ReadPairs(s, units[1..]) == Some(0);
  }

  /**
   Two durations of one length are shown alike, and what is shown has that length: a normal form of every duration.
   */
  lemma FormatNormalises(a: string, b: string)
    requires ParseDuration(a).Some? && ParseDuration(b).Some?
    ensures ParseDuration(FormatOverdue(ParseDuration(a).value)) == ParseDuration(a)
    ensures FormatOverdue(ParseDuration(a).value) == FormatOverdue(ParseDuration(b).value) <==>
      ParseDuration(a) == ParseDuration(b)
  {
    hide ParseDuration, FormatOverdue;
    ParseOfFormat(ParseDuration(a).value);
    ParseOfFormat(ParseDuration(b).value);
  }

  /** A duration already in mixed radix, not zero, is shown exactly as it is spelled. */
  lemma FormatOfRender(d: nat, h: nat, m: nat, s: nat)
    requires h < 24 && m < 60 && s < 60 && Total(d, h, m, s) > 0
    ensures FormatOverdue(Total(d, h, m, s)) == Render(d, h, m, s)
    ensures ParseDuration(Render(d, h, m, s)) == Some(Total(d, h, m, s))
  {
    hide Render, ReadPairs, Units;
    Radix(d, h, m, s);
    EmptyRender(d, h, m, s);
    ReadOfRender(d, h, m, s);
  }

  /** A span that is nothing, or not yet, is shown as none. */
  lemma ShownAsNone(span: int)
    ensures FormatOverdue(span) == "0s" <==> span <= 0
  {
    if span > 0 {
      ParseOfFormat(span);
      ParseNone();
    } else {
      assert Render(0, 0, 0, 0) == "";
    }
  }

  lemma ParseNone()
    ensures ParseDuration("0s") == Some(0)
  {
    assert Leading("0s") == 1 && Read("0") == 0;
    assert "0s"[..1] == "0" && "0s"[2..] == "";
    assert Units()[1..][0] == ('h', 3600) && Units()[1..][1..][0] == ('m', 60) && Units()[1..][1..][1..][0] == ('s', 1);
  }

  // --- every spelling the grammar takes ---

  /** Each unit's digits with its letter, a unit left out where it has none. */
  function Spell(amounts: seq<string>, units: seq<(char, nat)>): string
    requires |amounts| == |units|
  {
    if amounts == [] then ""
    else Piece(amounts[0], units[0].0) + Spell(amounts[1..], units[1..])
  }

  function Piece(x: string, letter: char): string {
    if x == "" then "" else x + [letter]
  }

  function Amount(amounts: seq<string>, units: seq<(char, nat)>): nat
    requires |amounts| == |units| && forall i :: 0 <= i < |amounts| ==> AllDigits(amounts[i])
  {
    if amounts == [] then 0 else Weigh(Read(amounts[0]), units[0].1) + Amount(amounts[1..], units[1..])
  }

  lemma NoDigits()
    ensures Read("") == 0
  {
  }

  lemma SpellFirst(x: string, amounts: seq<string>, units: seq<(char, nat)>)
    requires units != [] && |amounts| == |units| - 1 && AllDigits(x)
    requires forall i :: 0 <= i < |amounts| ==> AllDigits(amounts[i])
    ensures Spell([x] + amounts, units) == Piece(x, units[0].0) + Spell(amounts, units[1..])
    ensures Amount([x] + amounts, units) == Weigh(Read(x), units[0].1) + Amount(amounts, units[1..])
  {
    hide Read, Weigh, AllDigits;
    assert ([x] + amounts)[1..] == amounts;
  }

  /** What the pairs read is digits and letters in the units' order, and their weighed sum. */
  lemma {:induction false} PairsShape(s: string, units: seq<(char, nat)>) returns (amounts: seq<string>)
    requires ReadPairs(s, units).Some?
    ensures |amounts| == |units| && (forall i :: 0 <= i < |amounts| ==> AllDigits(amounts[i]))
    ensures s == Spell(amounts, units) && ReadPairs(s, units) == Some(Amount(amounts, units))
    decreases |units|
  {
    hide Read, Weigh, Spell, Amount, AllDigits;
    NoDigits();
    if units == [] {
      SpellEmpty();
      amounts := [];
    } else {
      var k := Leading(s);
      LeadingDigits(s);
      if s != "" && s[k] == units[0].0 {
        var rest := PairsShape(s[k + 1..], units[1..]);
        amounts := [s[..k]] + rest;
        SpellFirst(s[..k], rest, units);
        assert s == s[..k] + [s[k]] + s[k + 1..];
      } else {
        var rest := PairsShape(s, units[1..]);
        amounts := [""] + rest;
        SpellFirst("", rest, units);
        WeighNothing(units[0].1);
      }
    }
  }

  lemma LeadingDigits(s: string)
    ensures AllDigits(s[..Leading(s)]) && AllDigits("")
  {
  }

  lemma WeighNothing(seconds: nat)
    ensures Weigh(0, seconds) == 0
  {
  }

  /**
   Main result: the grammar takes only days, hours, minutes and seconds, each at most once, in that order, as digits and
   the unit's letter, with something there; and what it takes is their sum.
   */
  lemma DurationShape(s: string) returns (amounts: seq<string>)
    requires ParseDuration(s).Some?
    ensures s != "" && |amounts| == 4 && forall i :: 0 <= i < 4 ==> AllDigits(amounts[i])
    ensures s == Spelled(amounts[0], amounts[1], amounts[2], amounts[3])
    ensures ParseDuration(s)
      == Some(Read(amounts[0]) * 86400 + Read(amounts[1]) * 3600 + Read(amounts[2]) * 60 + Read(amounts[3]))
  {
    hide Read, ReadPairs;
    amounts := PairsShape(s, Units());
    assert amounts == [amounts[0], amounts[1], amounts[2], amounts[3]];
    FourSpelled(amounts[0], amounts[1], amounts[2], amounts[3]);
  }

  function Spelled(d: string, h: string, m: string, t: string): string {
    (if d == "" then "" else d + "d") + (if h == "" then "" else h + "h")
    + (if m == "" then "" else m + "m") + (if t == "" then "" else t + "s")
  }

  lemma SpellStep(amounts: seq<string>, units: seq<(char, nat)>, k: nat)
    requires k < |amounts| == |units|
    ensures Spell(amounts[k..], units[k..]) == Piece(amounts[k], units[k].0) + Spell(amounts[k + 1..], units[k + 1..])
    ensures (forall i :: 0 <= i < |amounts| ==> AllDigits(amounts[i])) ==>
      Amount(amounts[k..], units[k..]) == Read(amounts[k]) * units[k].1 + Amount(amounts[k + 1..], units[k + 1..])
  {
    hide Read, AllDigits;
    assert amounts[k..][1..] == amounts[k + 1..] && units[k..][1..] == units[k + 1..];
  }

  lemma Joined(p: string, q: string, r: string, w: string)
    ensures p + (q + (r + (w + ""))) == p + q + r + w
  {
  }

  lemma Steps4(a: seq<string>)
    requires |a| == 4 && forall i :: 0 <= i < |a| ==> AllDigits(a[i])
    ensures Spell(a, Units())
      == Piece(a[0], 'd') + (Piece(a[1], 'h') + (Piece(a[2], 'm') + (Piece(a[3], 's') + "")))
    ensures Amount(a, Units()) == Read(a[0]) * 86400 + (Read(a[1]) * 3600 + (Read(a[2]) * 60 + Read(a[3])))
  {
    hide Read, Spell, Amount, AllDigits, Piece;
    var u := Units();
    assert a[0..] == a && u[0..] == u && a[4..] == [] && u[4..] == [];
    SpellEmpty();
    SpellStep(a, u, 3);
    SpellStep(a, u, 2);
    SpellStep(a, u, 1);
    SpellStep(a, u, 0);
  }

  lemma FourSpelled(d: string, h: string, m: string, t: string)
    requires AllDigits(d) && AllDigits(h) && AllDigits(m) && AllDigits(t)
    ensures Spell([d, h, m, t], Units()) == Spelled(d, h, m, t)
    ensures Amount([d, h, m, t], Units()) == Read(d) * 86400 + Read(h) * 3600 + Read(m) * 60 + Read(t)
  {
    hide Read, Spell, Amount, AllDigits;
    Steps4([d, h, m, t]);
    Joined(Piece(d, 'd'), Piece(h, 'h'), Piece(m, 'm'), Piece(t, 's'));
  }

  lemma SpellEmpty()
    ensures Spell([], []) == "" && Amount([], []) == 0
  {
  }
}
