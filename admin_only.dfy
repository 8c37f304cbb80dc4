/**
 * The admin gate in front of the management routes: it passes a request on
 * only when the token's role label is "admin" or "super admin" in any
 * letter case.
 */
module AdminOnly {
  import opened Schema
  import opened Text

  /** What the middleware does: call `next()`, or answer with a status and an error body. */
  datatype Decision = Next | Forbidden(status: int, error: string)

  /** The message of the 403 answer. */
  const Denied := "Access denied: Admins only"

  /** The middleware, given `req.user?.role`. */
  function AdminOnly(role: Option<string>): (d: Decision)
    ensures d == Next <==>
      role.Some? && (EqualsIgnoringCase(role.value, "admin") || EqualsIgnoringCase(role.value, "super admin"))
    ensures d != Next ==> d == Forbidden(403, Denied)
  {
    if role.None? || role.value == "" then Forbidden(403, Denied)
    else
      LowerMatches(role.value, "admin");
      LowerMatches(role.value, "super admin");
      if Lower(role.value) in ["admin", "super admin"] then Next else Forbidden(403, Denied)
  }

  /** The labels the gate lets through, in any letter case. */
  lemma AdminLabelsAllowed()
    ensures AdminOnly(Some("Admin")) == Next
    ensures AdminOnly(Some("ADMIN")) == Next
    ensures AdminOnly(Some("admin")) == Next
    ensures AdminOnly(Some("Super Admin")) == Next
  {
    assert EqualsIgnoringCase("Admin", "admin");
    assert EqualsIgnoringCase("ADMIN", "admin");
    assert EqualsIgnoringCase("admin", "admin");
    assert EqualsIgnoringCase("Super Admin", "super admin");
  }

  /** Labels the gate refuses: none, empty, other roles, and a label padded with a space. */
  lemma OtherLabelsDenied()
    ensures AdminOnly(None) == Forbidden(403, Denied)
    ensures AdminOnly(Some("")) == Forbidden(403, Denied)
    ensures AdminOnly(Some(" admin")) == Forbidden(403, Denied)
    ensures AdminOnly(Some("Manager")) == Forbidden(403, Denied)
  {
    assert !SameLetter(' ', 'a') && !SameLetter(' ', 's');
    assert !SameLetter('M', 'a') && !SameLetter('M', 's');
  }
}
