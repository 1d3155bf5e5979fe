/** The route guard that runs before protected pages: a request without a
    signed-in user to a dashboard or project path is redirected to the login
    page, carrying the path it came from. */
module RouteGuard {
  import opened Wrappers

  /** The signed-in user as reported by the authentication service. */
  datatype User = User(id: string, email: Option<string>)

  /** The query of a URL: an ordered list of name/value pairs in which a name may repeat. */
  type Query = seq<(string, string)>

  /** The parts of a request URL the guard reads or rewrites; `origin` and
      `hash` stand for everything else the URL carries. */
  datatype Url = Url(origin: string, pathname: string, query: Query, hash: string)

  /** What the guard answers: let the request through, or redirect it. */
  datatype Response = Next | Redirect(location: Url)

  const LoginPath: string := "/login"
  const RedirectParam: string := "redirectedFrom"

  predicate StartsWith(s: string, prefix: string)
  {
    |prefix| <= |s| && s[..|prefix|] == prefix
  }

  /** A raw prefix test on the pathname, so `/dashboardX` counts too. */
  predicate IsProtectedRoute(pathname: string)
  {
    StartsWith(pathname, "/dashboard") || StartsWith(pathname, "/projects")
  }

  /** The first value stored under `name` (`URLSearchParams.get`). */
  function Get(q: Query, name: string): (r: Option<string>)
    ensures r.Some? ==> (name, r.value) in q
  {
    if q == [] then None
    else if q[0].0 == name then Some(q[0].1)
    else Get(q[1..], name)
  }

  /** Every pair whose name is not `name`, in order. */
  function Without(q: Query, name: string): (r: Query)
    ensures |r| <= |q|
    ensures forall p :: p in r <==> p in q && p.0 != name
  {
    if q == [] then []
    else if q[0].0 == name then Without(q[1..], name)
    else [q[0]] + Without(q[1..], name)
  }

  /** The values stored under `name`, in order (`URLSearchParams.getAll`). */
  function GetAll(q: Query, name: string): seq<string>
  {
    if q == [] then []
    else if q[0].0 == name then [q[0].1] + GetAll(q[1..], name)
    else GetAll(q[1..], name)
  }

  /** `URLSearchParams.set`: the first pair named `name` takes the new value
      and the later ones are dropped; when there is none the pair is appended. */
  function Set(q: Query, name: string, value: string): Query
  {
    if q == [] then [(name, value)]
    else if q[0].0 == name then [(name, value)] + Without(q[1..], name)
    else [q[0]] + Set(q[1..], name, value)
  }

  lemma {:induction false} WithoutHasNone(q: Query, name: string)
    ensures GetAll(Without(q, name), name) == []
  {
    if q != [] {
      WithoutHasNone(q[1..], name);
    }
  }

  /** After `set`, the name holds exactly the one value just set. */
  lemma {:induction false} SetLeavesOneValue(q: Query, name: string, value: string)
    ensures GetAll(Set(q, name, value), name) == [value]
    ensures Get(Set(q, name, value), name) == Some(value)
  {
    if q == [] {
    } else if q[0].0 == name {
      WithoutHasNone(q[1..], name);
    } else {
      SetLeavesOneValue(q[1..], name, value);
    }
  }

  lemma {:induction false} WithoutTwice(q: Query, name: string)
    ensures Without(Without(q, name), name) == Without(q, name)
  {
    if q != [] {
      WithoutTwice(q[1..], name);
    }
  }

  /** `set` leaves every pair under another name where it was, in order. */
  lemma {:induction false} SetKeepsOthers(q: Query, name: string, value: string)
    ensures Without(Set(q, name, value), name) == Without(q, name)
  {
    if q == [] {
    } else if q[0].0 == name {
      WithoutTwice(q[1..], name);
    } else {
      SetKeepsOthers(q[1..], name, value);
    }
  }

  lemma {:induction false} OtherNameUnaffected(q: Query, name: string, value: string, other: string)
    requires other != name
    ensures GetAll(Set(q, name, value), other) == GetAll(q, other)
    ensures Get(Set(q, name, value), other) == Get(q, other)
  {
    if q == [] {
    } else if q[0].0 == name {
      WithoutOtherUnaffected(q[1..], name, other);
    } else {
      OtherNameUnaffected(q[1..], name, value, other);
    }
  }

  lemma {:induction false} WithoutOtherUnaffected(q: Query, name: string, other: string)
    requires other != name
    ensures GetAll(Without(q, name), other) == GetAll(q, other)
    ensures Get(Without(q, name), other) == Get(q, other)
  {
    if q != [] {
      WithoutOtherUnaffected(q[1..], name, other);
    }
  }

  /** The decision: a pass-through, or a redirect to the login page built
      from a copy of the request URL. */
  function Route(request: Url, user: Option<User>): Response
  {
    if user.None? && IsProtectedRoute(request.pathname) then
      Redirect(request.(pathname := LoginPath,
                        query := Set(request.query, RedirectParam, request.pathname)))
    else Next
  }

  /** The request URL as the mutable object the guard clones and edits. */
  class NextUrl {
    var origin: string
    var pathname: string
    var search: Query
    var hash: string

    function Value(): Url
      reads this
    {
      Url(origin, pathname, search, hash)
    }

    /** `request.nextUrl.clone()` */
    constructor Clone(u: Url)
      ensures Value() == u
    {
      origin, pathname, search, hash := u.origin, u.pathname, u.query, u.hash;
    }

    /** `url.pathname = p` */
    method SetPathname(p: string)
      modifies this
      ensures Value() == old(Value()).(pathname := p)
    {
      pathname := p;
    }

    /** `url.searchParams.set(name, value)` */
    method SetSearchParam(name: string, value: string)
      modifies this
      ensures Value() == old(Value()).(query := Set(old(search), name, value))
    {
      search := Set(search, name, value);
    }
  }

  /** The middleware itself; the user is what the authentication service returned. */
  method Middleware(request: Url, user: Option<User>) returns (res: Response)
    ensures res == Route(request, user)
  {
    var isProtectedRoute := StartsWith(request.pathname, "/dashboard")
                            || StartsWith(request.pathname, "/projects");
    if user.None? && isProtectedRoute {
      var url := new NextUrl.Clone(request);
      url.SetPathname(LoginPath);
      url.SetSearchParam(RedirectParam, request.pathname);
      return Redirect(url.Value());
    }
    return Next;
  }

  /** A request is redirected exactly when nobody is signed in and the path is protected. */
  lemma RedirectIff(request: Url, user: Option<User>)
    ensures Route(request, user).Redirect? <==> user.None? && IsProtectedRoute(request.pathname)
  {
  }

  /** The redirect goes to the login page, records the original path as the
      only `redirectedFrom` value, and keeps the rest of the URL: origin, hash
      and every other query pair in order. */
  lemma RedirectTarget(request: Url)
    requires IsProtectedRoute(request.pathname)
    ensures Route(request, None).Redirect?
    ensures var u := Route(request, None).location;
      && u.pathname == LoginPath
      && GetAll(u.query, RedirectParam) == [request.pathname]
      && Without(u.query, RedirectParam) == Without(request.query, RedirectParam)
      && u.origin == request.origin && u.hash == request.hash
  {
    SetLeavesOneValue(request.query, RedirectParam, request.pathname);
    SetKeepsOthers(request.query, RedirectParam, request.pathname);
  }

  /** A signed-in user is never redirected, whatever the path. */
  lemma SignedInPasses(request: Url, u: User)
    ensures Route(request, Some(u)) == Next
  {
  }

  /** An unprotected path passes through even without a user. */
  lemma UnprotectedPasses(request: Url, user: Option<User>)
    requires !IsProtectedRoute(request.pathname)
    ensures Route(request, user) == Next
  {
  }

  /** The login page the guard redirects to is not itself guarded, so the
      redirect cannot loop. */
  lemma RedirectTargetPasses(request: Url)
    requires IsProtectedRoute(request.pathname)
    ensures Route(Route(request, None).location, None) == Next
  {
    assert !StartsWith(LoginPath, "/dashboard");
    assert !StartsWith(LoginPath, "/projects");
  }

  /** The prefix test is raw: `/dashboardX` and `/projectsfoo` are protected. */
  lemma RawPrefix()
    ensures IsProtectedRoute("/dashboardX")
    ensures IsProtectedRoute("/projectsfoo")
    ensures !IsProtectedRoute("/")
  {
    assert "/dashboardX"[..10] == "/dashboard";
    assert "/projectsfoo"[..9] == "/projects";
  }

  /** The middleware's matcher `/dashboard/:path*` and `/projects/:path*`:
      the base path itself or anything below it. */
  predicate MatchesConfig(pathname: string)
  {
    pathname == "/dashboard" || StartsWith(pathname, "/dashboard/")
    || pathname == "/projects" || StartsWith(pathname, "/projects/")
  }

  lemma PrefixOfPrefix(s: string, p: string, q: string)
    requires StartsWith(s, p + q)
    ensures StartsWith(s, p)
  {
    assert s[..|p|] == (p + q)[..|p|];
  }

  /** Every path the middleware runs for is one it protects. */
  lemma MatchedIsProtected(pathname: string)
    requires MatchesConfig(pathname)
    ensures IsProtectedRoute(pathname)
  {
    if StartsWith(pathname, "/dashboard/") {
      PrefixOfPrefix(pathname, "/dashboard", "/");
    } else if StartsWith(pathname, "/projects/") {
      PrefixOfPrefix(pathname, "/projects", "/");
    } else {
      assert pathname[..|pathname|] == pathname;
    }
  }

  /** A request as the framework serves it: the middleware runs only on matched paths. */
  function Serve(request: Url, user: Option<User>): Response
  {
    if MatchesConfig(request.pathname) then Route(request, user) else Next
  }

  /** Served requests are redirected exactly when nobody is signed in and the
      path matches; so `/dashboardX`, though protected, is never redirected. */
  lemma ServeRedirectsIff(request: Url, user: Option<User>)
    ensures Serve(request, user).Redirect? <==> user.None? && MatchesConfig(request.pathname)
  {
    if MatchesConfig(request.pathname) {
      MatchedIsProtected(request.pathname);
    }
  }
}
