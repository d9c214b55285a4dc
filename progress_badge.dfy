/** The progress badge: a label and a colour chosen by bands of the percentage,
    and the text "<label> (%<percent>)". Percentages are integers here. */
module ProgressBadge {
  import opened Wrappers

  datatype Variant = Secondary | Destructive | Default

  /** `getVariant` */
  function GetVariant(percent: int): (v: Variant)
    ensures percent == 0 ==> v == Secondary
    ensures percent != 0 && percent <= 30 ==> v == Destructive
    ensures 30 < percent <= 70 ==> v == Default
    ensures 70 < percent < 100 ==> v == Secondary
    ensures percent >= 100 ==> v == Default
  {
    if percent == 0 then Secondary
    else if percent <= 30 then Destructive
    else if percent <= 70 then Default
    else if percent < 100 then Secondary
    else Default
  }

  const NotStarted := "Ba\U{015F}lanmad\U{0131}"
  const Beginning := "Ba\U{015F}lang\U{0131}\U{00E7}"
  const Middle := "Orta"
  const FinishingTouches := "Son R\U{00F6}tu\U{015F}"
  const Completed := "Tamamland\U{0131}"

  /** `getLabel` */
  function GetLabel(percent: int): (name: string)
    ensures name == NotStarted <==> percent == 0
    ensures name == Beginning <==> percent != 0 && percent <= 30
    ensures name == Middle <==> 30 < percent <= 70
    ensures name == FinishingTouches <==> 70 < percent < 100
    ensures name == Completed <==> percent >= 100
  {
    if percent == 0 then NotStarted
    else if percent <= 30 then Beginning
    else if percent <= 70 then Middle
    else if percent < 100 then FinishingTouches
    else Completed
  }

  /** The position of a label in the sequence of bands. */
  function LabelRank(name: string): nat {
    if name == NotStarted then 0
    else if name == Beginning then 1
    else if name == Middle then 2
    else if name == FinishingTouches then 3
    else 4
  }

  /** Over 0..100 a larger percentage never shows an earlier label. */
  lemma LabelMonotone(p: int, q: int)
    requires 0 <= p <= q
    ensures LabelRank(GetLabel(p)) <= LabelRank(GetLabel(q))
  {
  }

  /** The variant's colour classes. */
  function ColorClasses(v: Variant): (c: string)
    ensures v == Secondary ==> c == "bg-gray-100 text-gray-800"
    ensures v == Destructive ==> c == "bg-red-100 text-red-800"
    ensures v == Default ==> c == "bg-yellow-100 text-yellow-800"
  {
    match v
    case Secondary => "bg-gray-100 text-gray-800"
    case Destructive => "bg-red-100 text-red-800"
    case Default => "bg-yellow-100 text-yellow-800"
  }

  const Green := "bg-green-100 text-green-800"

  /** The decimal digits of `n`, most significant first, without leading zeros. */
  function Digits(n: nat): (s: string)
    ensures |s| >= 1
    ensures forall i :: 0 <= i < |s| ==> '0' <= s[i] <= '9'
    ensures n > 0 ==> s[0] != '0'
    decreases n
  {
    var d := [(('0' as int) + n % 10) as char];
    if n < 10 then d else Digits(n / 10) + d
  }

  /** The number a string of decimal digits denotes. */
  function DigitsValue(s: string): nat
    requires forall i :: 0 <= i < |s| ==> '0' <= s[i] <= '9'
  {
    if s == [] then 0
    else 10 * DigitsValue(s[..|s| - 1]) + (s[|s| - 1] as int - '0' as int)
  }

  lemma {:induction false} DigitsRoundTrip(n: nat)
    ensures DigitsValue(Digits(n)) == n
    decreases n
  {
    var s := Digits(n);
    if n >= 10 {
      DigitsRoundTrip(n / 10);
      assert s[..|s| - 1] == Digits(n / 10);
    }
  }

  /** How JavaScript prints an integer. */
  function Decimal(n: int): (s: string)
    ensures |s| >= 1
    ensures n < 0 <==> s[0] == '-'
    ensures forall i :: (if n < 0 then 1 else 0) <= i < |s| ==> '0' <= s[i] <= '9'
    ensures n >= 0 ==> DigitsValue(s) == n
    ensures n < 0 ==> DigitsValue(s[1..]) == -n
    ensures var k := if n < 0 then 1 else 0; |s| > k && (n != 0 ==> s[k] != '0')
    ensures n == 0 ==> s == "0"
  {
    var body := Digits(if n < 0 then -n else n);
    DigitsRoundTrip(if n < 0 then -n else n);
    if n < 0 then
      assert ("-" + body)[1..] == body;
      "-" + body
    else body
  }

  datatype Badge = Badge(variant: Option<Variant>, className: string, text: string)

  /** `ProgressBadge` */
  function Render(percent: int): (b: Badge)
    ensures b.className == Green <==> percent == 100
    ensures percent == 100 ==> b.variant == None
    ensures percent != 100 ==> b.variant == Some(GetVariant(percent)) && b.className == ColorClasses(b.variant.value)
    ensures b.text == GetLabel(percent) + " (%" + Decimal(percent) + ")"
  {
    var text := GetLabel(percent) + " (%" + Decimal(percent) + ")";
    if percent == 100 then Badge(None, Green, text)
    else Badge(Some(GetVariant(percent)), ColorClasses(GetVariant(percent)), text)
  }
}
