/** `clean_max_speed`: normalises the `maxspeed` attribute that road data
    carries as a string, a list of strings, or not at all, into the integer
    speed limit in km/h that the searches divide by. */
module SpeedLimit {
  import opened RoadGraph

  /** The raw attribute: absent, one string, a list of strings, or a value
      that is already a number (as after a first cleaning). */
  datatype SpeedAttr = Missing | Text(s: string) | TextList(items: seq<string>) | Number(n: int)

  /** The speed assumed when the data gives none that can be read. */
  const DefaultSpeed: int := 30

  predicate IsDigit(c: char) {
    '0' <= c <= '9'
  }

  /** A non-empty string of decimal digits: no sign, decimal point, unit or
      separator is numeric. */
  predicate IsNumeric(s: string)
    ensures IsNumeric(s) ==> s != "" && forall c :: c in s ==> c !in " +-.,;"
  {
    |s| > 0 && forall i :: 0 <= i < |s| ==> IsDigit(s[i])
  }

  /** The decimal value of a digit string: 0 exactly for the all-zero
      strings, and a string without a leading zero is the written form of
      its value. */
  function ParseNat(s: string): (n: nat)
    requires forall i :: 0 <= i < |s| ==> IsDigit(s[i])
    ensures n == 0 <==> forall i :: 0 <= i < |s| ==> s[i] == '0'
    ensures |s| > 0 && s[0] != '0' ==> Digits(n) == s
  {
    if s == [] then 0
    else
      assert IsDigit(s[|s| - 1]);
      10 * ParseNat(s[..|s| - 1]) + (s[|s| - 1] as int - '0' as int)
  }

  /** A leading zero adds nothing, as with `int("050") == 50`. With the
      contract of `ParseNat` this fixes the value of every digit string. */
  lemma {:induction false} ParseNatLeadingZero(s: string)
    requires |s| > 0 && s[0] == '0'
    requires forall i :: 0 <= i < |s| ==> IsDigit(s[i])
    ensures ParseNat(s) == ParseNat(s[1..])
    decreases |s|
  {
    if |s| > 1 {
      var init := s[..|s| - 1];
      ParseNatLeadingZero(init);
      assert s[1..][..|s| - 2] == init[1..];
    }
  }

  /** The digits of `n`, without leading zeros. */
  function Digits(n: nat): (s: string)
    ensures IsNumeric(s)
  {
    if n < 10 then [('0' as int + n) as char] else Digits(n / 10) + [('0' as int + n % 10) as char]
  }

  /** Reading back the written digits of a number gives the number. */
  lemma {:induction false} ParseDigits(n: nat)
    ensures ParseNat(Digits(n)) == n
  {
    var s := Digits(n);
    if n >= 10 {
      ParseDigits(n / 10);
      assert s[..|s| - 1] == Digits(n / 10);
    }
  }

  /** The values of the numeric entries of a list, in list order (the list
      comprehension of the cleaning). */
  function NumericSpeeds(items: seq<string>): (speeds: seq<nat>)
    ensures |speeds| <= |items|
    ensures forall s :: s in items && IsNumeric(s) ==> ParseNat(s) in speeds
    ensures forall v :: v in speeds ==> exists s :: s in items && IsNumeric(s) && ParseNat(s) == v
  {
    if items == [] then []
    else
      var rest := NumericSpeeds(items[1..]);
      assert forall s :: s in items[1..] ==> s in items;
      if IsNumeric(items[0]) then [ParseNat(items[0])] + rest else rest
  }

  /** The least element of a non-empty list. */
  function Min(xs: seq<nat>): (m: nat)
    requires |xs| > 0
    ensures m in xs && forall x :: x in xs ==> m <= x
  {
    if |xs| == 1 then xs[0]
    else
      var m := Min(xs[1..]);
      assert xs == [xs[0]] + xs[1..];
      if xs[0] <= m then xs[0] else m
  }

  /** The cleaned speed of one edge: never negative; a numeric string
      gives its value and any other string the default; otherwise either
      the default or the value of a numeric string the attribute holds. It is 0 only
      when the data says so (a speed that would later divide by zero). */
  function CleanSpeed(a: SpeedAttr): (r: int)
    ensures r >= 0
    ensures a.Missing? || a.Number? ==> r == DefaultSpeed
    ensures a.Text? && IsNumeric(a.s) ==> r == ParseNat(a.s)
    ensures a.Text? && !IsNumeric(a.s) ==> r == DefaultSpeed
    ensures r == DefaultSpeed ||
      (a.Text? && IsNumeric(a.s) && r == ParseNat(a.s)) ||
      (a.TextList? && exists s :: s in a.items && IsNumeric(s) && r == ParseNat(s))
  {
    match a
    case Missing => DefaultSpeed
    case Number(_) => DefaultSpeed
    case Text(s) => if IsNumeric(s) then ParseNat(s) else DefaultSpeed
    case TextList(items) =>
      var speeds := NumericSpeeds(items);
      if |speeds| > 0 then Min(speeds) else DefaultSpeed
  }

  /** A speed of 0 comes from a numeric string worth 0. */
  lemma CleanSpeedZero(a: SpeedAttr)
    ensures CleanSpeed(a) == 0 ==>
      (a.Text? && IsNumeric(a.s) && forall i :: 0 <= i < |a.s| ==> a.s[i] == '0') ||
      (a.TextList? && exists s :: s in a.items && IsNumeric(s) && forall i :: 0 <= i < |s| ==> s[i] == '0')
  {
    if CleanSpeed(a) == 0 && a.TextList? {
      var s :| s in a.items && IsNumeric(s) && 0 == ParseNat(s);
    }
  }

  /** A list is cleaned to the least value among its numeric entries, or to
      the default when it has none. */
  lemma CleanListIsLeastNumeric(items: seq<string>)
    ensures (exists s :: s in items && IsNumeric(s)) ==>
      && (exists s :: s in items && IsNumeric(s) && CleanSpeed(TextList(items)) == ParseNat(s))
      && (forall s :: s in items && IsNumeric(s) ==> CleanSpeed(TextList(items)) <= ParseNat(s))
    ensures (forall s :: s in items ==> !IsNumeric(s)) ==> CleanSpeed(TextList(items)) == DefaultSpeed
  {
    var speeds := NumericSpeeds(items);
    if |speeds| > 0 {
      assert speeds[0] in speeds;
    }
    if exists s :: s in items && IsNumeric(s) {
      var s :| s in items && IsNumeric(s);
      assert ParseNat(s) in speeds;
    }
  }

  /** The string "0" is cleaned to a speed of 0. */
  lemma ZeroStringGivesZero()
    ensures CleanSpeed(Text("0")) == 0
  {
    assert IsNumeric("0");
    assert "0"[..0] == [];
  }

  /** Cleaning is not idempotent: the written digits of any speed other than
      the default are cleaned to that speed, but the cleaned value, being
      neither a string nor a list, is reset to the default by a second
      cleaning. */
  lemma NotIdempotent(n: nat)
    requires n != DefaultSpeed
    ensures var a := Text(Digits(n));
      CleanSpeed(a) == n && CleanSpeed(Number(CleanSpeed(a))) != CleanSpeed(a)
  {
    ParseDigits(n);
  }

  /** The raw attributes of an edge as loaded. */
  datatype RawEdge = RawEdge(length: real, maxspeed: SpeedAttr)

  /** Rewrites every edge's speed attribute to its cleaned speed. */
  method CleanMaxSpeed(raw: map<EdgeId, RawEdge>) returns (edges: map<EdgeId, Edge>)
    ensures edges.Keys == raw.Keys
    ensures forall k :: k in raw ==> edges[k] == Edge(raw[k].length, CleanSpeed(raw[k].maxspeed))
  {
    edges := map[];
    var todo := raw.Keys;
    while todo != {}
      invariant todo <= raw.Keys
      invariant edges.Keys == raw.Keys - todo
      invariant forall k :: k in edges ==> edges[k] == Edge(raw[k].length, CleanSpeed(raw[k].maxspeed))
      decreases |todo|
    {
      var k :| k in todo;
      var maxSpeed := DefaultSpeed;
      match raw[k].maxspeed {
        case Missing =>
        case Number(_) =>
        case Text(s) =>
          if IsNumeric(s) {
            maxSpeed := ParseNat(s);
          }
        case TextList(items) =>
          var speeds := NumericSpeeds(items);
          if |speeds| > 0 {
            maxSpeed := Min(speeds);
          }
      }
      edges := edges[k := Edge(raw[k].length, maxSpeed)];
      todo := todo - {k};
    }
  }
}
