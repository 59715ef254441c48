/**
 * The dashboard overview page (app/dashboard/page.tsx): the attendance
 * statistics derived from the cached user list, and the display form of a
 * stored phone number.
 */
module DashboardPage {
  import opened Wrappers
  import opened Strings
  import opened Users

  /** The two daily check-ins: morning (`absen_pagi`) and evening (`absen_sore`). */
  datatype Session = Pagi | Sore

  function Flag(u: User, s: Session): bool {
    match s
    case Pagi => u.absenPagi
    case Sore => u.absenSore
  }

  /** `users.filter((u) => u.absen_pagi)` (or `absen_sore`): the records already checked in. */
  function Done(users: seq<User>, s: Session): (r: seq<User>)
    ensures |r| <= |users|
    ensures forall u :: u in r <==> u in users && Flag(u, s)
  {
    if users == [] then []
    else if Flag(users[0], s) then [users[0]] + Done(users[1..], s)
    else Done(users[1..], s)
  }

  datatype SessionStats = SessionStats(sudah: int, belum: int, percentage: int)
  datatype Stats = Stats(totalUsers: int, absenPagi: SessionStats, absenSore: SessionStats)

  /**
   * `Math.round(x)` of the rational `num / den`, halves rounded up, in integers:
   * floor(num / den + 1/2).
   */
  function RoundHalfUp(num: int, den: int): int
    requires den > 0
  {
    (2 * num + den) / (2 * den)
  }

  /** `Math.round((sudah / total) * 100)` */
  function Percentage(sudah: int, total: int): int
    requires total > 0
  {
    RoundHalfUp(100 * sudah, total)
  }

  function SessionOf(users: seq<User>, s: Session): SessionStats
    requires |users| > 0
  {
    var sudah := |Done(users, s)|;
    var total := |users|;
    SessionStats(sudah, total - sudah, if total > 0 then Percentage(sudah, total) else 0)
  }

  /**
   * `p` is the integer nearest to `100 * sudah / total`, a half rounding up:
   * `p - 1/2 <= 100 * sudah / total < p + 1/2`, multiplied out by `2 * total`.
   */
  predicate Nearest(p: int, sudah: int, total: int) {
    2 * total * p - total <= 200 * sudah < 2 * total * p + total
  }

  /** The `stats` memo of the overview page. */
  function ComputeStats(users: seq<User>): (r: Stats)
    ensures r.totalUsers == |users|
    ensures r.absenPagi.sudah == |Done(users, Pagi)| && r.absenSore.sudah == |Done(users, Sore)|
    ensures WellFormed(r)
    ensures |users| > 0 ==> Nearest(r.absenPagi.percentage, r.absenPagi.sudah, |users|)
    ensures |users| > 0 ==> Nearest(r.absenSore.percentage, r.absenSore.sudah, |users|)
  {
    if |users| == 0 then
      Stats(0, SessionStats(0, 0, 0), SessionStats(0, 0, 0))
    else
      PercentageBounds(|Done(users, Pagi)|, |users|);
      PercentageBounds(|Done(users, Sore)|, |users|);
      PercentageNearest(|Done(users, Pagi)|, |users|);
      PercentageNearest(|Done(users, Sore)|, |users|);
      Stats(|users|, SessionOf(users, Pagi), SessionOf(users, Sore))
  }

  /** Done and pending add up to the total, neither is negative, and the percentage is in [0, 100]. */
  ghost predicate SessionWellFormed(st: SessionStats, total: int) {
    && 0 <= st.sudah && 0 <= st.belum
    && st.sudah + st.belum == total
    && 0 <= st.percentage <= 100
  }

  ghost predicate WellFormed(r: Stats) {
    SessionWellFormed(r.absenPagi, r.totalUsers) && SessionWellFormed(r.absenSore, r.totalUsers)
  }

  function Of(r: Stats, s: Session): SessionStats {
    match s
    case Pagi => r.absenPagi
    case Sore => r.absenSore
  }

  /** Multiplying by a positive number keeps a strict order. */
  lemma {:induction false} MulStrict(a: int, b: int, d: int)
    requires d > 0 && a < b
    ensures a * d < b * d
    decreases b - a
  {
    assert b * d == (b - 1) * d + d;
    if a < b - 1 {
      MulStrict(a, b - 1, d);
    }
  }

  /** `n / d` is the `q` whose multiples of `d` bracket `n`. */
  lemma DivisionBracket(n: int, d: int, q: int)
    requires d > 0 && q * d <= n < (q + 1) * d
    ensures n / d == q
  {
    var q' := n / d;
    assert q' * d <= n < (q' + 1) * d;
    if q' + 1 < q {
      MulStrict(q' + 1, q, d);
    } else if q + 1 < q' {
      MulStrict(q + 1, q', d);
    }
  }

  /** The bounds and the two end points of the rounded percentage. */
  lemma PercentageBounds(sudah: int, total: int)
    requires 0 <= sudah <= total && total > 0
    ensures 0 <= Percentage(sudah, total) <= 100
    ensures sudah == 0 ==> Percentage(sudah, total) == 0
    ensures sudah == total ==> Percentage(sudah, total) == 100
  {
    var d := 2 * total;
    var num := 200 * sudah + total;
    var p := num / d;
    assert Percentage(sudah, total) == p;
    assert p * d <= num < (p + 1) * d;
    assert 0 < num < 101 * d;
    if p < 0 {
      MulStrict(p + 1, 1, d);
    }
    if p > 100 {
      MulStrict(101, p, d);
    }
    if sudah == 0 {
      DivisionBracket(num, d, 0);
    }
    if sudah == total {
      DivisionBracket(num, d, 100);
    }
  }

  /** The percentage is the integer nearest to 100·sudah/total, a half rounding up. */
  lemma PercentageNearest(sudah: int, total: int)
    requires 0 <= sudah <= total && total > 0
    ensures Nearest(Percentage(sudah, total), sudah, total)
  {
  }

  /** At most one integer is nearest, so `Nearest` pins the shown percentage down. */
  lemma NearestUnique(p: int, q: int, sudah: int, total: int)
    requires total > 0 && Nearest(p, sudah, total) && Nearest(q, sudah, total)
    ensures p == q
  {
    var d := 2 * total;
    assert (p - q) * d < d && (q - p) * d < d;
    if p < q {
      MulStrict(1, q - p, d);
    } else if q < p {
      MulStrict(1, p - q, d);
    }
  }

  /** With no users every figure is zero. */
  lemma EmptyStats()
    ensures ComputeStats([]) == Stats(0, SessionStats(0, 0, 0), SessionStats(0, 0, 0))
  {
  }

  /** A session with nobody checked in shows 0%, one with everybody checked in shows 100%. */
  lemma StatsEndpoints(users: seq<User>, s: Session)
    requires |users| > 0
    ensures |Done(users, s)| == 0 ==> Of(ComputeStats(users), s).percentage == 0
    ensures |Done(users, s)| == |users| ==> Of(ComputeStats(users), s).percentage == 100
  {
    PercentageBounds(|Done(users, s)|, |users|);
  }

  /** How often each record occurs among the checked-in ones. */
  lemma {:induction false} DoneMultiset(users: seq<User>, s: Session)
    ensures forall u :: multiset(Done(users, s))[u] == if Flag(u, s) then multiset(users)[u] else 0
  {
    if users != [] {
      DoneMultiset(users[1..], s);
      assert users == [users[0]] + users[1..];
    }
  }

  /** The statistics depend only on which records there are, not on their order. */
  lemma {:induction false} StatsIgnoreOrder(a: seq<User>, b: seq<User>)
    requires multiset(a) == multiset(b)
    ensures ComputeStats(a) == ComputeStats(b)
  {
    assert |a| == |multiset(a)| == |multiset(b)| == |b|;
    forall s: Session
      ensures |Done(a, s)| == |Done(b, s)|
    {
      DoneMultiset(a, s);
      DoneMultiset(b, s);
      assert multiset(Done(a, s)) == multiset(Done(b, s));
      assert |Done(a, s)| == |multiset(Done(a, s))|;
      assert |Done(b, s)| == |multiset(Done(b, s))|;
    }
    assert |Done(a, Pagi)| == |Done(b, Pagi)|;
    assert |Done(a, Sore)| == |Done(b, Sore)|;
  }

  /** The suffix that turns a phone number into a WhatsApp address. */
  const WaSuffix := "@s.whatsapp.net"

  /** `formatPhoneNumber`: the stored address shown without its suffix. */
  function FormatPhoneNumber(number: string): (r: string)
    ensures !Contains(number, WaSuffix) ==> r == number
    ensures Contains(number, WaSuffix) ==>
      var i := IndexOf(number, WaSuffix).value;
      r == number[..i] + number[i + |WaSuffix|..] && |r| == |number| - |WaSuffix|
  {
    ReplaceFirst(number, WaSuffix, "")
  }

  /** Display strips an appended suffix and nothing else. */
  lemma {:induction false} FormatStripsAppendedSuffix(p: string)
    requires !Contains(p, WaSuffix)
    ensures FormatPhoneNumber(p + WaSuffix) == p
  {
    IndexOfAppended(p, WaSuffix);
    assert (p + WaSuffix)[|p| + |WaSuffix|..] == [];
    assert (p + WaSuffix)[..|p|] == p;
  }
}
