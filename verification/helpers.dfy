/**
 * client/src/utils/helpers.js: the client's own debt simplifier and the
 * small string helpers `truncateText`, `getUserInitials`, `getRandomColor`
 * and `isValidEmail`.
 */
module Helpers {
  import opened Wrappers
  import opened Balances
  import opened Strings
  import opened Parties
  import opened DebtWalk
  import Settlement

  // ---------------------------------------------------------------------
  // simplifyDebts (helpers.js:86-119)
  // ---------------------------------------------------------------------

  /**
   * The client simplifier: creditors and debtors in list order, no sorting,
   * and every iteration of the walk emits its amount.
   */
  function SimplifyDebts(balances: BalanceMap): (r: seq<Txn>)
    ensures Distinct(balances) ==> forall t :: t in r ==> Get(balances, t.from) < -Eps && Get(balances, t.to) > Eps
    ensures forall t :: t in r ==> t.amount >= Eps
    ensures |Creditors(balances)| == 0 || |Debtors(balances)| == 0 <==> r == []
    ensures |r| <= |Creditors(balances)| + |Debtors(balances)|
    ensures |Creditors(balances)| > 0 && |Debtors(balances)| > 0 ==> |r| < |Creditors(balances)| + |Debtors(balances)|
  {
    var cs, ds := Creditors(balances), Debtors(balances);
    var r := Steps(cs, ds);
    assert Distinct(balances) ==> forall t :: t in r ==> Get(balances, t.from) < -Eps && Get(balances, t.to) > Eps by {
      if Distinct(balances) {
        forall t | t in r ensures Get(balances, t.from) < -Eps && Get(balances, t.to) > Eps {
          PartitionOwed(balances, t.from);
          PartitionOwed(balances, t.to);
          OwedPositiveIffListed(ds, t.from);
          OwedPositiveIffListed(cs, t.to);
        }
      }
    }
    r
  }

  /**
   * When creditors and debtors balance, every creditor is paid exactly what
   * it is owed and every debtor pays exactly its debt.
   */
  lemma SimplifyDebtsSettlesExactly(balances: BalanceMap, u: UserId)
    requires Distinct(balances)
    requires Sum(Creditors(balances)) == Sum(Debtors(balances))
    ensures PaidTo(SimplifyDebts(balances), u) == (if Get(balances, u) > Eps then Get(balances, u) else 0)
    ensures PaidFrom(SimplifyDebts(balances), u) == (if Get(balances, u) < -Eps then -Get(balances, u) else 0)
  {
    StepsSettleExactly(Creditors(balances), Debtors(balances), u);
    PartitionOwed(balances, u);
  }

  /**
   * On a list whose sides are already in descending order, the server's
   * suggestions are the client's with the payments of one cent left out.
   */
  lemma ServerDropsOnlySmallPayments(balances: BalanceMap)
    requires SortDesc(Creditors(balances)) == Creditors(balances)
    requires SortDesc(Debtors(balances)) == Debtors(balances)
    ensures Settlement.SimplifyDebts(balances) == AboveEps(SimplifyDebts(balances))
  {
    WalkIsStepsAboveEps(Creditors(balances), Debtors(balances));
  }

  // ---------------------------------------------------------------------
  // truncateText (helpers.js:80-83)
  // ---------------------------------------------------------------------

  /**
   * `truncateText(text, max)`: a missing or empty text, or one of at most
   * `max` characters, comes back unchanged; otherwise the first `max`
   * characters (none for a negative `max`) followed by "...".
   */
  function TruncateText(text: Option<string>, max: int): (r: Option<string>)
    ensures text.None? || text.value == [] || |text.value| <= max ==> r == text
    ensures text.Some? && |text.value| > max && text.value != [] ==>
      r.Some? && |r.value| == (if max < 0 then 0 else max) + 3
      && r.value[..|r.value| - 3] == text.value[..|r.value| - 3]
      && r.value[|r.value| - 3..] == "..."
  {
    if text.None? || text.value == [] || |text.value| <= max then text
    else
      var keep := if max < 0 then 0 else max;
      Some(text.value[..keep] + "...")
  }

  // ---------------------------------------------------------------------
  // getUserInitials (helpers.js:49-54)
  // ---------------------------------------------------------------------

  /** The position of the last space in `s`, if any. */
  function LastSpace(s: string): (r: Option<nat>)
    ensures r.None? <==> ' ' !in s
    ensures r.Some? ==> r.value < |s| && s[r.value] == ' ' && forall j :: r.value < j < |s| ==> s[j] != ' '
  {
    if |s| == 0 then None
    else if s[|s| - 1] == ' ' then Some(|s| - 1)
    else
      assert s == s[..|s| - 1] + [s[|s| - 1]];
      LastSpace(s[..|s| - 1])
  }

  /** The position of the first space in `s`, if any. */
  function FirstSpace(s: string): (r: Option<nat>)
    ensures r.None? <==> ' ' !in s
    ensures r.Some? ==> r.value < |s| && s[r.value] == ' ' && forall j :: 0 <= j < r.value ==> s[j] != ' '
  {
    if |s| == 0 then None
    else if s[0] == ' ' then Some(0)
    else
      assert s == [s[0]] + s[1..];
      match FirstSpace(s[1..])
      case None => None
      case Some(k) => Some(k + 1)
  }

  /**
   * `getUserInitials(name)`: "?" for a missing or empty name; otherwise
   * the name is trimmed and split on spaces, and the result is the first
   * letter of the first word, followed by the first letter of the last word
   * when there are several, upper-cased.  A name of only whitespace makes
   * the source read a letter of an empty word and throw: `None`.
   */
  function GetUserInitials(name: Option<string>): (r: Option<string>)
    ensures name.None? || name.value == [] ==> r == Some("?")
    ensures name.Some? && name.value != [] ==> (r.None? <==> Trim(name.value) == [])
    ensures r.Some? ==> 1 <= |r.value| <= 2
  {
    if name.None? || name.value == [] then Some("?") else InitialsOfTrimmed(Trim(name.value))
  }

  /** The split and the initials of an already trimmed name. */
  function InitialsOfTrimmed(t: string): (r: Option<string>)
    requires t == [] || (!IsWhitespace(t[0]) && !IsWhitespace(t[|t| - 1]))
    ensures r.None? <==> t == []
    ensures r.Some? ==> 1 <= |r.value| <= 2
  {
    var parts := Split(t, ' ');
    if |parts| == 1 then
      if parts[0] == [] then None else Some([UpperChar(parts[0][0])])
    else
      InitialsOfWords(t);
      Some([UpperChar(parts[0][0]), UpperChar(parts[|parts| - 1][0])])
  }

  /**
   * The initials of a name with a letter in it: the upper-cased first
   * character of the trimmed name, then, when the trimmed name has a space,
   * the upper-cased character right after its last space.
   */
  lemma InitialsOfName(name: string)
    requires Trim(name) != []
    ensures var t := Trim(name);
      && (' ' !in t ==> GetUserInitials(Some(name)) == Some([UpperChar(t[0])]))
      && (' ' in t ==> t[|t| - 1] != ' '
                       && GetUserInitials(Some(name)) == Some([UpperChar(t[0]), UpperChar(t[LastSpace(t).value + 1])]))
  {
    var t := Trim(name);
    if ' ' in t {
      SeveralWordsInitials(t);
    } else {
      OneWordInitials(t);
    }
  }

  /** A trimmed name without a space is one word: one initial. */
  lemma OneWordInitials(t: string)
    requires t != [] && !IsWhitespace(t[0]) && !IsWhitespace(t[|t| - 1])
    requires ' ' !in t
    ensures InitialsOfTrimmed(t) == Some([UpperChar(t[0])])
  {
    var parts := Split(t, ' ');
    assert |parts| == 1 && parts[0] == t;
  }

  /** A trimmed name with a space: initials of its first and last words. */
  lemma SeveralWordsInitials(t: string)
    requires t != [] && !IsWhitespace(t[0]) && !IsWhitespace(t[|t| - 1])
    requires ' ' in t
    ensures t[|t| - 1] != ' '
    ensures InitialsOfTrimmed(t) == Some([UpperChar(t[0]), UpperChar(t[LastSpace(t).value + 1])])
  {
    InitialsOfWords(t);
  }

  /**
   * In a trimmed text with a space, the first word starts the text and the
   * last word starts right after the last space; neither is empty.
   */
  lemma InitialsOfWords(t: string)
    requires |t| > 0 && !IsWhitespace(t[0]) && !IsWhitespace(t[|t| - 1])
    requires ' ' in t
    ensures var parts := Split(t, ' ');
      |parts| > 1 && |parts[0]| > 0 && |parts[|parts| - 1]| > 0
      && parts[0][0] == t[0] && parts[|parts| - 1][0] == t[LastSpace(t).value + 1]
  {
    var f := FirstSpace(t).value;
    var l := LastSpace(t).value;
    SplitFirst(t, ' ', f);
    SplitLast(t, ' ', l);
    assert f > 0;
    assert l < |t| - 1;
  }

  // ---------------------------------------------------------------------
  // getRandomColor (helpers.js:57-71)
  // ---------------------------------------------------------------------

  const Palette: seq<string> := [
    "#3b82f6", "#ef4444", "#10b981", "#f59e0b", "#8b5cf6",
    "#ec4899", "#06b6d4", "#84cc16", "#f97316", "#6366f1"]

  const Two32: int := 0x1_0000_0000
  const Two31: int := 0x8000_0000

  /** ECMAScript ToInt32 on an integral number: wrap into [-2^31, 2^31). */
  function ToInt32(x: int): (r: int)
    ensures -Two31 <= r < Two31
    ensures (r - x) % Two32 == 0
  {
    (x + Two31) % Two32 - Two31
  }

  /** One round of `hash = c + ((hash << 5) - hash)`; only the shift wraps. */
  function HashStep(h: int, c: char): int
  {
    c as int + ToInt32(ToInt32(h) * 32) - h
  }

  function Hash(s: string): int
  {
    if |s| == 0 then 0 else HashStep(Hash(s[..|s| - 1]), s[|s| - 1])
  }

  /**
   * `getRandomColor(seed)`: the first palette colour without a seed,
   * otherwise the colour the seed's hash picks; always a palette colour.
   */
  function GetRandomColor(seed: Option<string>): (r: string)
    ensures r in Palette
    ensures seed.None? || seed.value == [] ==> r == Palette[0]
    ensures seed.Some? && seed.value != [] ==> r == Palette[(if Hash(seed.value) < 0 then -Hash(seed.value) else Hash(seed.value)) % |Palette|]
  {
    if seed.None? || seed.value == [] then Palette[0]
    else
      var h := Hash(seed.value);
      Palette[(if h < 0 then -h else h) % |Palette|]
  }

  // ---------------------------------------------------------------------
  // isValidEmail (helpers.js:74-77)
  // ---------------------------------------------------------------------

  /** Characters `[^\s@]` admits. */
  predicate Plain(c: char)
  {
    c != '@' && !IsWhitespace(c)
  }

  /** Every character of `s[lo..hi]` is plain. */
  predicate PlainRange(s: string, lo: int, hi: int)
    requires 0 <= lo <= hi <= |s|
  {
    forall k :: lo <= k < hi ==> Plain(s[k])
  }

  /**
   * `s` matches `^[^\s@]+@[^\s@]+\.[^\s@]+$` with the '@' at `at` and the
   * separating '.' at `dot`.
   */
  predicate EmailAt(s: string, at: int, dot: int)
  {
    0 < at && at + 1 < dot && dot + 1 < |s|
    && s[at] == '@' && s[dot] == '.'
    && PlainRange(s, 0, at) && PlainRange(s, at + 1, |s|)
  }

  /**
   * `isValidEmail(email)`: one scan up to the '@', one scan of the domain
   * watching for a '.' with text on both sides.
   */
  method IsValidEmail(s: string) returns (ok: bool)
    ensures ok <==> exists at, dot :: EmailAt(s, at, dot)
  {
    var i := 0;
    while i < |s| && Plain(s[i])
      invariant 0 <= i <= |s|
      invariant PlainRange(s, 0, i)
    {
      i := i + 1;
    }
    if i == |s| || s[i] != '@' || i == 0 {
      forall a, d ensures EmailAt(s, a, d) ==> a == i {
        FirstStop(s, a, d, i);
      }
      return false;
    }
    var at := i;
    i := i + 1;
    var dot := -1;
    while i < |s| && Plain(s[i])
      invariant at + 1 <= i <= |s|
      invariant PlainRange(s, at + 1, i)
      invariant dot == -1 || (at + 1 < dot < i && dot + 1 < |s| && s[dot] == '.')
      invariant dot == -1 ==> forall j :: at + 1 < j < i && j + 1 < |s| ==> s[j] != '.'
    {
      if s[i] == '.' && at + 1 < i && i + 1 < |s| {
        dot := i;
      }
      i := i + 1;
    }
    ok := i == |s| && dot != -1;
    forall a, d ensures EmailAt(s, a, d) ==> ok {
      DomainStop(s, at, i, dot, a, d);
    }
    if ok {
      assert EmailAt(s, at, dot);
    }
  }

  /** The '@' of a valid address is the first character that is not plain. */
  lemma FirstStop(s: string, at: int, dot: int, i: int)
    requires 0 <= i <= |s| && PlainRange(s, 0, i)
    requires i == |s| || !Plain(s[i])
    ensures EmailAt(s, at, dot) ==> i == at
  {
    assert forall k :: 0 <= k < at && EmailAt(s, at, dot) ==> Plain(s[k]);
  }

  /** The domain scan of a valid address reaches the end having seen the '.'. */
  lemma DomainStop(s: string, at: int, i: int, dot: int, a: int, d: int)
    requires 0 < at < |s| && s[at] == '@' && PlainRange(s, 0, at)
    requires at + 1 <= i <= |s| && PlainRange(s, at + 1, i)
    requires i == |s| || !Plain(s[i])
    requires dot == -1 ==> forall j :: at + 1 < j < i && j + 1 < |s| ==> s[j] != '.'
    ensures EmailAt(s, a, d) ==> i == |s| && dot != -1
  {
    FirstStop(s, a, d, at);
    assert forall k :: a < k < |s| && EmailAt(s, a, d) ==> Plain(s[k]);
  }

  /** A valid address has exactly one '@' and no whitespace. */
  lemma ValidEmailShape(s: string, at: int, dot: int)
    requires EmailAt(s, at, dot)
    ensures forall k :: 0 <= k < |s| ==> !IsWhitespace(s[k])
    ensures forall k :: 0 <= k < |s| && s[k] == '@' ==> k == at
  {
  }
}
