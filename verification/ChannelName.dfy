/** The Redis channel that carries one profile's events (internal/profile/pubsub.go): its name, and
    how the dispatcher reads the profile id back out of it. */
module ChannelName {
  import opened Basics
  import opened Numerals

  const PROFILE_CHANNEL := "profile:updated"

  predicate IsInt32(n: int) {
    -0x8000_0000 <= n < 0x8000_0000
  }

  // ---------- strconv.FormatInt and strconv.ParseInt, base 10 ----------

  function FormatInt(n: int): string {
    if n < 0 then "-" + Decimal(-n) else Decimal(n)
  }

  /** What is left of a numeral without its sign. */
  function Unsigned(s: string): string {
    if s != "" && (s[0] == '-' || s[0] == '+') then s[1..] else s
  }

  /** ParseInt with bit size 32: an optional sign, then digits, and a value out of range is an error. */
  function ParseInt32(s: string): Option<int> {
    if !IsDigits(Unsigned(s)) then None
    else
      var magnitude: int := ValueOf(Unsigned(s));
      var n := if s[0] == '-' then -magnitude else magnitude;
      if IsInt32(n) then Some(n) else None
  }

  // ---------- naming and routing ----------

  function ChannelFor(userID: int): string {
    PROFILE_CHANNEL + ":" + FormatInt(userID)
  }

  /** The profile id an event on this channel is routed to, if it is a profile channel at all. */
  function RouteOf(channel: string): Option<int> {
    var raw := CutPrefix(channel, PROFILE_CHANNEL + ":");
    if raw.None? then None else ParseInt32(raw.value)
  }

  /** The numerals FormatInt prints: no plus sign, no leading zero, no negative zero. */
  predicate Canonical(s: string) {
    && IsDigits(Unsigned(s))
    && s[0] != '+'
    && (Unsigned(s)[0] == '0' ==> s == "0")
  }

  // ---------- they undo each other ----------

  lemma FormatIsCanonical(n: int)
    ensures Canonical(FormatInt(n))
    ensures IsInt32(n) ==> ParseInt32(FormatInt(n)) == Some(n)
  {
    if n < 0 {
      DecimalValue(-n);
      assert Unsigned(FormatInt(n)) == Decimal(-n);
    } else {
      DecimalValue(n);
      assert Unsigned(FormatInt(n)) == Decimal(n);
    }
  }

  /** Printing undoes parsing exactly for the canonical numerals; "+7" and "007" also parse to 7. */
  lemma FormatUndoesParse(s: string)
    requires ParseInt32(s).Some?
    ensures FormatInt(ParseInt32(s).value) == s <==> Canonical(s)
  {
    FormatIsCanonical(ParseInt32(s).value);
    if Canonical(s) {
      ValueDecimal(Unsigned(s));
      assert s[0] == '-' ==> s == "-" + Unsigned(s);
    }
  }

  /** Every int32 id, negative ones included, is routed back to from its own channel. */
  lemma RouteUndoesName(id: int)
    requires IsInt32(id)
    ensures RouteOf(ChannelFor(id)) == Some(id)
  {
    CutPrefixOfConcat(PROFILE_CHANNEL + ":", FormatInt(id));
    FormatIsCanonical(id);
  }

  /** A channel name routes to `id` and is the name of `id` exactly when its numeral is canonical, so
      no two ids share a channel, and the only other channels routed to an id are non-canonical ones. */
  lemma {:induction false} NameUndoesRoute(channel: string)
    requires RouteOf(channel).Some?
    ensures ChannelFor(RouteOf(channel).value) == channel
       <==> Canonical(channel[|PROFILE_CHANNEL| + 1..])
  {
    var raw := CutPrefix(channel, PROFILE_CHANNEL + ":").value;
    FormatUndoesParse(raw);
    assert channel[|PROFILE_CHANNEL| + 1..] == raw;
    var named := ChannelFor(RouteOf(channel).value);
    CutPrefixOfConcat(PROFILE_CHANNEL + ":", FormatInt(RouteOf(channel).value));
    assert named[|PROFILE_CHANNEL| + 1..] == FormatInt(RouteOf(channel).value);
  }

  function Zeros(k: nat): string { seq(k, i => '0') }

  lemma OneMoreZero(s: string, k: nat, digits: string)
    requires s != "" && s[0] == '0' && s[1..] == Zeros(k) + digits
    ensures s == Zeros(k + 1) + digits
  {
    assert s == "0" + s[1..];
    assert Zeros(k + 1) == "0" + Zeros(k);
  }

  lemma {:induction false} LeadingZeros(s: string) returns (k: nat)
    requires IsDigits(s)
    ensures s == Zeros(k) + Decimal(ValueOf(s))
  {
    if |s| > 1 && s[0] == '0' {
      ValueWithoutZero(s);
      k := LeadingZeros(s[1..]);
      OneMoreZero(s, k, Decimal(ValueOf(s)));
      k := k + 1;
    } else {
      k := 0;
      ValueDecimal(s);
      assert Zeros(0) == "";
    }
  }

  lemma {:induction false} ValueWithoutZero(s: string)
    requires IsDigits(s) && |s| > 1 && s[0] == '0'
    ensures IsDigits(s[1..]) && ValueOf(s[1..]) == ValueOf(s)
  {
    var front := s[..|s| - 1];
    if |s| > 2 {
      ValueWithoutZero(front);
      assert s[1..][..|s| - 2] == front[1..];
    } else {
      assert front == "0" && s[1..] == [s[1]];
    }
  }

  lemma ZeroInFront(t: string)
    requires IsDigits(t)
    ensures IsDigits("0" + t) && ValueOf("0" + t) == ValueOf(t)
  {
    var s := "0" + t;
    assert s[1..] == t && forall i :: 0 < i < |s| ==> s[i] == t[i - 1];
    ValueWithoutZero(s);
  }

  lemma FirstZero(k: nat, digits: string)
    requires k > 0
    ensures Zeros(k) + digits == "0" + (Zeros(k - 1) + digits)
  {
  }

  lemma {:induction false} ZerosDoNotCount(k: nat, digits: string)
    requires IsDigits(digits)
    ensures IsDigits(Zeros(k) + digits) && ValueOf(Zeros(k) + digits) == ValueOf(digits)
  {
    if k == 0 {
      assert Zeros(0) + digits == digits;
    } else {
      ZerosDoNotCount(k - 1, digits);
      ZeroInFront(Zeros(k - 1) + digits);
      FirstZero(k, digits);
    }
  }

  /** A numeral for `n`: a minus sign if it is negative, a plus, or a minus before zero, if one likes; any
      zeros; and the decimal digits of the number. */
  ghost predicate Writes(s: string, n: int, sign: string, k: nat) {
    && (if n < 0 then sign == "-" else sign == "" || sign == "+" || (n == 0 && sign == "-"))
    && s == sign + (Zeros(k) + Decimal(if n < 0 then -n else n))
  }

  lemma SignOf(s: string) returns (sign: string)
    requires IsDigits(Unsigned(s))
    ensures s == sign + Unsigned(s) && (sign == "" || sign == "+" || sign == "-")
    ensures sign == "-" <==> s[0] == '-'
  {
    if s[0] == '-' || s[0] == '+' {
      sign := [s[0]];
    } else {
      sign := "";
    }
  }

  lemma ParsedIsWritten(s: string) returns (sign: string, k: nat)
    requires ParseInt32(s).Some?
    ensures Writes(s, ParseInt32(s).value, sign, k)
  {
    k := LeadingZeros(Unsigned(s));
    sign := SignOf(s);
  }

  lemma UnsignedOf(sign: string, digits: string)
    requires IsDigits(digits) && (sign == "" || sign == "+" || sign == "-")
    ensures Unsigned(sign + digits) == digits && ((sign + digits)[0] == '-' <==> sign == "-")
  {
    assert IsDigit(digits[0]);
  }

  lemma SignedParses(sign: string, digits: string, n: int)
    requires IsInt32(n) && IsDigits(digits) && ValueOf(digits) == (if n < 0 then -n else n)
    requires if n < 0 then sign == "-" else sign == "" || sign == "+" || (n == 0 && sign == "-")
    ensures ParseInt32(sign + digits) == Some(n)
  {
    UnsignedOf(sign, digits);
  }

  lemma WrittenParses(s: string, n: int, sign: string, k: nat)
    requires IsInt32(n) && Writes(s, n, sign, k)
    ensures ParseInt32(s) == Some(n)
  {
    var digits := Decimal(if n < 0 then -n else n);
    DecimalValue(if n < 0 then -n else n);
    ZerosDoNotCount(k, digits);
    SignedParses(sign, Zeros(k) + digits, n);
  }

  /** Exactly which channels are routed to an id: those that are the prefix and a numeral for it. */
  lemma RoutesExactly(channel: string, id: int)
    ensures RouteOf(channel) == Some(id) <==>
              && -0x8000_0000 <= id < 0x8000_0000
              && exists s, sign, k :: Writes(s, id, sign, k) && channel == "profile:updated:" + s
  {
    assert PROFILE_CHANNEL + ":" == "profile:updated:";
    if RouteOf(channel) == Some(id) {
      var raw := CutPrefix(channel, PROFILE_CHANNEL + ":").value;
      var sign, k := ParsedIsWritten(raw);
      assert Writes(raw, id, sign, k) && channel == "profile:updated:" + raw;
    }
    if IsInt32(id) {
      forall s, sign, k | Writes(s, id, sign, k) && channel == "profile:updated:" + s
        ensures RouteOf(channel) == Some(id)
      {
        CutPrefixOfConcat(PROFILE_CHANNEL + ":", s);
        WrittenParses(s, id, sign, k);
      }
    }
  }

  /** Channels that are no profile's, so that Publish never sends on them, are routed to one all the
      same. */
  lemma OddNamesAreRouted()
    ensures RouteOf("profile:updated:+7") == Some(7) && RouteOf("profile:updated:007") == Some(7)
    ensures forall id :: ChannelFor(id) != "profile:updated:+7" && ChannelFor(id) != "profile:updated:007"
  {
    CutPrefixOfConcat(PROFILE_CHANNEL + ":", "+7");
    CutPrefixOfConcat(PROFILE_CHANNEL + ":", "007");
    assert PROFILE_CHANNEL + ":" + "+7" == "profile:updated:+7";
    assert PROFILE_CHANNEL + ":" + "007" == "profile:updated:007";
    assert ValueOf("7") == 7;
    assert "007"[..2] == "00" && "00"[..1] == "0";
    assert ValueOf("00") == 0;
    forall id ensures ChannelFor(id) != "profile:updated:+7" && ChannelFor(id) != "profile:updated:007" {
      FormatIsCanonical(id);
      assert ChannelFor(id)[|PROFILE_CHANNEL| + 1..] == FormatInt(id);
    }
  }

  lemma NamesAreInjective(a: int, b: int)
    requires ChannelFor(a) == ChannelFor(b)
    ensures a == b
  {
    assert ChannelFor(a)[|PROFILE_CHANNEL| + 1..] == FormatInt(a);
    assert ChannelFor(b)[|PROFILE_CHANNEL| + 1..] == FormatInt(b);
    DecimalValue(if a < 0 then -a else a);
    DecimalValue(if b < 0 then -b else b);
    assert a < 0 ==> FormatInt(a)[1..] == Decimal(-a);
    assert b < 0 ==> FormatInt(b)[1..] == Decimal(-b);
  }
}
