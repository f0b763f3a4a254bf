/** The level check of the `require_level` decorator (src/routes/user.py):
    three named levels ranked 1 to 3, every other level counted as 1, and a
    request let through when the caller's rank reaches the required rank. */
module Access {
  import opened Values

  /** `user_levels.get(level, 1)` with `user_levels = {'user': 1, 'admin': 2,
      'developer': 3}`. */
  function Rank(level: string): (n: nat)
    ensures 1 <= n <= 3
    ensures n == 3 <==> level == "developer"
    ensures n == 2 <==> level == "admin"
  {
    if level == "user" then 1
    else if level == "admin" then 2
    else if level == "developer" then 3
    else 1
  }

  /** The stored `user_level` may be NULL; `get(None, 1)` is 1. */
  function HeldRank(level: Option<string>): (n: nat)
    ensures 1 <= n <= 3
    ensures level.None? ==> n == 1
  {
    match level
    case None => 1
    case Some(l) => Rank(l)
  }

  /** What the decorator finds on the request: no `current_user` attribute, an
      attribute holding `None` (the session's user no longer exists), or a user
      with a `user_level` column. */
  datatype Caller = Anonymous | Vanished | Account(level: Option<string>)

  /** The decorator's outcome: 401, 403, the wrapped handler, or an uncaught
      `AttributeError` (reading `user_level` of `None`). The `Crash` is what
      `require_level` alone does; under `require_auth` the error becomes a 401. */
  datatype Decision = Unauthorized | Forbidden | Proceed | Crash

  /** Lines 35-45. */
  function Check(required: string, caller: Caller): (d: Decision)
    ensures d == Unauthorized <==> caller.Anonymous?
    ensures d == Crash <==> caller.Vanished?
    ensures caller.Account? ==> (d == Forbidden <==> HeldRank(caller.level) < Rank(required))
    ensures caller.Account? ==> (d == Proceed <==> Rank(required) <= HeldRank(caller.level))
  {
    match caller
    case Anonymous => Unauthorized
    case Vanished => Crash
    case Account(level) =>
      if HeldRank(level) < Rank(required) then Forbidden else Proceed
  }

  /** Who may enter, level by level, written out without ranks: a `user`
      requirement (or any unknown one) admits everybody; `admin` admits
      admins and developers; `developer` admits developers only. */
  predicate Admits(required: string, level: Option<string>)
  {
    if required == "developer" then level == Some("developer")
    else if required == "admin" then level == Some("admin") || level == Some("developer")
    else true
  }

  /** The rank comparison is exactly the table above. */
  lemma CheckIsTable(required: string, level: Option<string>)
    ensures Check(required, Account(level)) == Proceed <==> Admits(required, level)
    ensures Check(required, Account(level)) == Forbidden <==> !Admits(required, level)
  {
  }

  /** A developer passes every level check. */
  lemma DeveloperPassesAll(required: string)
    ensures Check(required, Account(Some("developer"))) == Proceed
  {
  }

  /** Passing a check is inherited by every caller of at least the same rank,
      and by every weaker requirement. */
  lemma Monotone(required: string, weaker: string, a: Option<string>, b: Option<string>)
    requires Check(required, Account(a)) == Proceed
    requires HeldRank(a) <= HeldRank(b) && Rank(weaker) <= Rank(required)
    ensures Check(required, Account(b)) == Proceed
    ensures Check(weaker, Account(a)) == Proceed
  {
  }

  /** A required level outside the table lets every account through, and so
      does `user`. */
  lemma UnknownRequirementAdmitsAll(required: string, level: Option<string>)
    requires required != "admin" && required != "developer"
    ensures Check(required, Account(level)) == Proceed
  {
  }

  /** A caller without `current_user` gets 401 whatever level is required. */
  lemma AnonymousRejectedFirst(required: string, other: string)
    ensures Check(required, Anonymous) == Unauthorized
    ensures Check(required, Anonymous) == Check(other, Anonymous)
  {
  }
}
