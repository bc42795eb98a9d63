/** The edge check in front of the chat screen: which paths need a session, and where others are sent. */
module Middleware {
  import opened Wrappers
  import opened Text

  const ProtectedPaths: seq<string> := ["/chat"]
  const LoginPath := "/login"

  /** The part of a request URL the check reads: the path and the query pairs, in order. */
  datatype Url = Url(pathname: string, query: seq<(string, string)>)

  datatype Decision = Next | Redirect(to: Url)

  /** `pathname.startsWith(p)` for some protected `p`: a plain prefix test. */
  predicate IsProtected(path: string) {
    exists i :: 0 <= i < |ProtectedPaths| && StartsWith(path, ProtectedPaths[i])
  }

  /** `searchParams.get(name)`: the value of the first pair with that name. */
  function Param(query: seq<(string, string)>, name: string): (r: Option<string>)
    ensures r.None? <==> forall i :: 0 <= i < |query| ==> query[i].0 != name
    ensures r.Some? ==> exists i :: (0 <= i < |query| && query[i] == (name, r.value)
      && forall j :: 0 <= j < i ==> query[j].0 != name)
  {
    if |query| == 0 then None
    else if query[0].0 == name then Some(query[0].1)
    else
      var r := Param(query[1..], name);
      assert forall i :: 0 <= i < |query[1..]| ==> query[1..][i] == query[i + 1];
      assert r.Some? ==> exists i :: (0 < i < |query| && query[i] == (name, r.value)
        && forall j :: 0 <= j < i ==> query[j].0 != name) by {
        if r.Some? {
          var i :| 0 <= i < |query[1..]| && query[1..][i] == (name, r.value)
            && forall j :: 0 <= j < i ==> query[1..][j].0 != name;
          assert forall j :: 0 <= j < i + 1 ==> query[j].0 != name by {
            forall j | 0 <= j < i + 1 ensures query[j].0 != name {
              if j > 0 { assert query[j] == query[1..][j - 1]; }
            }
          }
        }
      }
      r
  }

  /** With `?code=&code=x` the first, empty value wins, so no code exchange is under way. */
  lemma FirstCodeWins(path: string, x: string)
    ensures Param([("code", ""), ("code", x)], "code") == Some("")
    ensures !HasAuthCode(Url(path, [("code", ""), ("code", x)]))
  {
  }

  /** A request carrying a non-empty `code` parameter is finishing a sign-in. */
  predicate HasAuthCode(url: Url) {
    Truthy(Param(url.query, "code"))
  }

  /**
   * Unprotected paths pass; a protected path passes during a code exchange or with
   * a session, and otherwise goes to the same URL with the path `/login`.
   */
  function Decide(url: Url, hasSession: bool): (d: Decision)
    ensures !IsProtected(url.pathname) ==> d == Next
    ensures IsProtected(url.pathname) && HasAuthCode(url) ==> d == Next
    ensures IsProtected(url.pathname) && hasSession ==> d == Next
    ensures d.Redirect? <==> IsProtected(url.pathname) && !HasAuthCode(url) && !hasSession
    ensures d.Redirect? ==> d.to.pathname == LoginPath && d.to.query == url.query
  {
    if !IsProtected(url.pathname) then Next
    else if HasAuthCode(url) then Next
    else if !hasSession then Redirect(url.(pathname := LoginPath))
    else Next
  }

  /** The test is a plain prefix: `/chat`, `/chat/x` and `/chatroom` are protected, `/login` and `/` are not. */
  lemma ProtectedExamples()
    ensures IsProtected("/chat") && IsProtected("/chat/x") && IsProtected("/chatroom")
    ensures !IsProtected("/login") && !IsProtected("/")
  {
    assert StartsWith("/chat", ProtectedPaths[0]);
    assert StartsWith("/chat/x", ProtectedPaths[0]);
    assert StartsWith("/chatroom", ProtectedPaths[0]);
    assert "/login"[..5][1] != ProtectedPaths[0][1];
  }

  /** A redirect lands on a page the check lets through: there is no redirect loop. */
  lemma RedirectSettles(url: Url, hasSession: bool)
    requires Decide(url, hasSession).Redirect?
    ensures Decide(Decide(url, hasSession).to, hasSession) == Next
  {
    ProtectedExamples();
  }

  /** The paths the route matcher `/chat/:path*` sends to the check: `/chat` and everything below it. */
  predicate Matched(path: string) {
    path == "/chat" || StartsWith(path, "/chat/")
  }

  /** Every matched path is protected, so the prefix test never lets a matched path through on its own. */
  lemma MatchedIsProtected(path: string)
    requires Matched(path)
    ensures IsProtected(path)
  {
    assert StartsWith(path, ProtectedPaths[0]);
  }
}
