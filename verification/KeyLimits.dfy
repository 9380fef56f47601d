/** How far the key layout carries: timestamps of unequal length, for they are stored without padding. */
module KeyLimits {
  import opened Text
  import opened OwnerRows

  /**
    Byte order of texts of numbers of unequal length: the shorter text comes first exactly when the
    shorter number, filled up with zeros on the right, does not exceed the longer one.
   */
  lemma TextOrder(s: nat, t: nat, k: nat)
    requires |Str(s)| + k == |Str(t)| && k > 0
    ensures Less(Str(s), Str(t)) <==> s * Pow10(k) <= t
  {
    var head, tail := Str(t)[..|Str(s)|], Str(t)[|Str(s)|..];
    assert Str(t) == head + tail && |tail| == k;
    assert AllDigits(head) && AllDigits(tail);
    DigitsOfStr(s);
    DigitsOfStr(t);
    DigitsAppend(head, tail);
    DigitsBelow(tail);
    LessIsNumeric(Str(s), head);
    ScaledOrder(s, Digits(head), Digits(tail), Pow10(k));
    if Str(s) == head {
      LessAfterPrefix(head, "", tail);
      assert head + "" == head;
    } else {
      if Digits(head) == s {
        DigitsInjective(Str(s), head);
      }
      LessByHead(Str(s), head, "", tail);
      assert Str(s) + "" == Str(s);
    }
  }

  lemma ScaledOrder(s: nat, h: nat, r: nat, p: nat)
    requires r < p
    ensures s * p <= h * p + r <==> s <= h
  {
    if s <= h {
      assert (h - s) * p >= 0;
      assert (h - s) * p == h * p - s * p;
    } else {
      assert (s - h - 1) * p >= 0;
      assert (s - h - 1) * p == s * p - h * p - p;
    }
  }

  /**
    The keys of one owner are in the order of their timestamps when the texts of these are equally
    long; otherwise exactly when the earlier one, filled up with zeros on the right, does not
    exceed the later one. The same tells where a cursor with too few digits cuts the feed.
   */
  lemma KeyOrderExact(owner: int, s: nat, t: nat, k: nat)
    requires s < t && |Str(s)| + k == |Str(t)|
    ensures Less(KeyText(owner, s), KeyText(owner, t)) <==> k == 0 || s * Pow10(k) <= t
  {
    LessAfterPrefix(OwnerText(owner) + ":", Str(s), Str(t));
    if k == 0 {
      DigitsOfStr(s);
      DigitsOfStr(t);
      LessIsNumeric(Str(s), Str(t));
    } else {
      TextOrder(s, t, k);
    }
  }

  /** Ten comes before nine. */
  lemma ShortTimestamps(owner: int)
    ensures !Less(KeyText(owner, 9), KeyText(owner, 10))
  {
    assert Str(9) == "9" && Str(10) == "10";
    KeyOrderExact(owner, 9, 10, 1);
  }

  lemma OneMore(u: nat, m: nat)
    requires u < m
    ensures (m + u) % m == u
  {
    Remainder(1, u, m);
  }

  /** A prefix scan for a user also finds the rows of a user id that is longer by a leading one. */
  lemma LongerIds(u: int, createdAt: int, m: nat)
    requires UserId(u) && m == Pow10(16)
    ensures Prefix(OwnerText(u), KeyText(m + u, createdAt))
  {
    OneMore(u, m);
    PrefixMatches(u, m + u, createdAt);
  }
}
