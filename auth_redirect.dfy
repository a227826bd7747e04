/** Where a user lands after logging in
    (`security/RoleBasedAuthenticationSuccessHandler.java`): the granted authorities
    are scanned in order and the first one naming a known role picks the page. */
module AuthRedirect {

  /** The page for a recognised authority, or `Unrecognised` for any other authority. */
  datatype Target = Unrecognised | Page(path: string)

  function TargetOf(authority: string): (t: Target)
    ensures t.Page? <==> authority in {"ROLE_ADMIN", "ROLE_MODERATOR", "ROLE_USER"}
    ensures authority == "ROLE_ADMIN" ==> t == Page("/admin/users")
    ensures authority == "ROLE_MODERATOR" ==> t == Page("/books")
    ensures authority == "ROLE_USER" ==> t == Page("/books/user/books")
  {
    if authority == "ROLE_ADMIN" then Page("/admin/users")
    else if authority == "ROLE_MODERATOR" then Page("/books")
    else if authority == "ROLE_USER" then Page("/books/user/books")
    else Unrecognised
  }

  /** The page the first recognised authority picks; "/" when none is recognised. */
  function RedirectTarget(authorities: seq<string>): (r: string)
    ensures r in {"/", "/admin/users", "/books", "/books/user/books"}
    ensures (forall a :: a in authorities ==> TargetOf(a).Unrecognised?) ==> r == "/"
  {
    if authorities == [] then "/"
    else if TargetOf(authorities[0]).Page? then TargetOf(authorities[0]).path
    else RedirectTarget(authorities[1..])
  }

  /** The target is that of the first recognised authority: every authority before it
      is passed over. */
  lemma {:induction false} FirstRecognisedDecides(authorities: seq<string>, k: nat)
    requires k < |authorities| && TargetOf(authorities[k]).Page?
    requires forall j :: 0 <= j < k ==> TargetOf(authorities[j]).Unrecognised?
    ensures RedirectTarget(authorities) == TargetOf(authorities[k]).path
  {
    if k > 0 {
      FirstRecognisedDecides(authorities[1..], k - 1);
    }
  }

  /** Unrecognised authorities in front change nothing: they do not stop the scan. */
  lemma {:induction false} UnrecognisedSkipped(skipped: seq<string>, rest: seq<string>)
    requires forall a :: a in skipped ==> TargetOf(a).Unrecognised?
    ensures RedirectTarget(skipped + rest) == RedirectTarget(rest)
  {
    if skipped == [] {
      assert skipped + rest == rest;
    } else {
      assert skipped[0] in skipped;
      assert (skipped + rest)[1..] == skipped[1..] + rest;
      UnrecognisedSkipped(skipped[1..], rest);
    }
  }

  /** The scan of `onAuthenticationSuccess`: the redirect starts as "/" and the loop
      stops at the first authority naming a known role. */
  method SelectRedirect(authorities: seq<string>) returns (redirectUrl: string)
    ensures redirectUrl == RedirectTarget(authorities)
  {
    redirectUrl := "/";
    var i := 0;
    while i < |authorities|
      invariant 0 <= i <= |authorities|
      invariant RedirectTarget(authorities) == RedirectTarget(authorities[i..])
      invariant redirectUrl == "/"
    {
      var role := authorities[i];
      if role == "ROLE_ADMIN" {
        redirectUrl := "/admin/users";
        break;
      } else if role == "ROLE_MODERATOR" {
        redirectUrl := "/books";
        break;
      } else if role == "ROLE_USER" {
        redirectUrl := "/books/user/books";
        break;
      }
      assert authorities[i..][1..] == authorities[i + 1..];
      i := i + 1;
    }
  }

  /** The redirect location: the context path followed by the chosen page. */
  method OnAuthenticationSuccess(contextPath: string, authorities: seq<string>) returns (location: string)
    ensures location == contextPath + RedirectTarget(authorities)
    ensures |location| > |contextPath| && location[..|contextPath|] == contextPath
  {
    var redirectUrl := SelectRedirect(authorities);
    location := contextPath + redirectUrl;
  }
}
