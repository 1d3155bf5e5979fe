# MM-online: verified model of the route guard, schedule validator, debounce hook and toast list

MM-online is a scheduling web application for film and TV productions. Most
of its code is page markup and calls into a hosted backend. This project models
the four small parts of it whose behaviour can be stated precisely, and proves
properties of them in Dafny:

- **Schedule shape check** (`project_schedule.dfy`, module `ProjectSchedule`).
  This covers the `Json` value type, the schedule record types (scenes,
  milestones, departments, with the status values `planejado`, `em_andamento`
  and `concluido`), and `isProjectSchedule`. That function is the shallow type
  guard applied to a schedule read back from storage. Pages substitute an
  empty schedule when the guard fails.
- **Route guard** (`route_guard.dfy`, module `RouteGuard`). The middleware
  lets a request through, or redirects it to `/login?redirectedFrom=<path>`
  when nobody is signed in and the path starts with `/dashboard` or
  `/projects`. The decision is the pure function `Route`. The method
  `Middleware` builds the redirect the way the source does: it clones the URL
  object, sets its pathname and calls `searchParams.set`. The query string is
  an ordered list of name/value pairs with the `URLSearchParams.set`
  semantics of the WHATWG URL standard.
- **Debounce hook** (`debounce.dfy`, module `Debounce`). Each call clears the
  single pending timeout and schedules a new one that carries that call's
  arguments. Time is explicit. The pure state machine is `Step`/`Run` over
  `Call` and `Tick` events, and the lemmas are about it. The class
  `Debouncer` holds the mutable timeout slot, and each of its methods is tied
  to one `Step`. The callback's invocations are recorded in a log.
- **Toast list** (`toaster.dfy`, module `Toasts`). A toast arrives and is
  appended. Its removal is scheduled 4000 ms later, and the removal filters
  out its id. `showToast` gives each toast a fresh id from an oracle object
  that stands in for `crypto.randomUUID`. The oracle is realised by a counter
  rendered in decimal, and the injectivity of that rendering is proved. The
  pure state machine is `Receive`/`Advance`. The class `Toaster` holds the
  list and its pending timers.

`wrappers.dfy` holds the `Option` type used for `undefined`, `null` and
missing values.

Inputs that come from outside the modelled code are parameters:

- the signed-in user returned by the authentication service (`Option<User>`);
- the elapsed time (`Tick(elapsed)`);
- the random ids (the `IdOracle`).

- The status values are the Portuguese ones the code declares (`planejado`,
  `em_andamento`, `concluido`).
- The hook's default delay is 500 ms; the schedule editor passes 800 ms (see
  `EditorBurst`). That lemma is about the calls made to the hook, not about
  the editor's renders: the editor passes an inline callback and calls the
  debounced function again from an effect after its renders, which is not
  modelled.
- The shape check does not look inside the arrays: it checks neither element
  shapes nor identifier uniqueness.

## Model

| member | source | states |
|---|---|---|
| `ProjectSchedule.IsNonNullObject` | src/types/project.ts:33 | no contract of its own; `typeof data === 'object' && data !== null`, characterised by PrimitivesRejected, NullRejected, ArrayRejected |
| `ProjectSchedule.Entry` | src/types/project.ts:34-35 | no contract of its own; the property read `maybe[key]`, characterised by ArrayRejected, MissingKeyRejected, ExtraKeyIrrelevant |
| `ProjectSchedule.IsArray` | src/types/project.ts:35 | no contract of its own; `Array.isArray`, characterised by AcceptedIff and MissingKeyRejected |
| `ProjectSchedule.IsProjectSchedule` | src/types/project.ts:32-36 | only a JSON object can be accepted |
| `ProjectSchedule.PrimitivesRejected` | src/types/project.ts:33 | every string, number and boolean is rejected |
| `ProjectSchedule.NullRejected` | src/types/project.ts:33 | `null` is rejected |
| `ProjectSchedule.ArrayRejected` | src/types/project.ts:33-35 | an array passes the `typeof` test yet is rejected, having no named entries |
| `ProjectSchedule.AcceptedIff` | src/types/project.ts:35 | an object is accepted if and only if each of `scenes`, `milestones`, `departments` is present, defined and an array |
| `ProjectSchedule.MissingKeyRejected` | src/types/project.ts:35 | an object missing one of the three keys, or mapping it to `undefined`, is rejected |
| `ProjectSchedule.ExtraKeyIrrelevant` | src/types/project.ts:35 | setting any other key to any value leaves the verdict unchanged |
| `ProjectSchedule.ShallowCheck` | src/types/project.ts:35 | arrays of arbitrary JSON under the three keys are accepted, whatever else the object holds |
| `ProjectSchedule.StoredScheduleAccepted` | src/types/project.ts:3-36 | the JSON form of every value of the declared schedule type passes the guard |
| `ProjectSchedule.ScheduleOrDefault` | src/types/project.ts:32-36 | the schedule a page uses after the guard (the project page's fallback to an empty default) always passes the guard; it is the stored value when that passes, else the empty default |
| `ProjectSchedule.ConcreteVerdicts` | src/types/project.ts:32-36 | the empty schedule is accepted; `{}`, `null` and `{scenes: []}` are rejected |
| `RouteGuard.IsProtectedRoute` | middleware.ts:13-15 | no contract of its own; characterised by RawPrefix and MatchedIsProtected |
| `RouteGuard.Set` | middleware.ts:20 | no contract of its own; `URLSearchParams.set`, characterised by SetLeavesOneValue, SetKeepsOthers, OtherNameUnaffected |
| `RouteGuard.Route` | middleware.ts:13-21 | no contract of its own; characterised by RedirectIff, RedirectTarget, SignedInPasses, UnprotectedPasses, RedirectTargetPasses |
| `RouteGuard.MatchesConfig` | middleware.ts:27-29 | no contract of its own; characterised by MatchedIsProtected and ServeRedirectsIff |
| `RouteGuard.Serve` | middleware.ts:27-29 | no contract of its own; characterised by ServeRedirectsIff |
| `RouteGuard.Get` | middleware.ts:20 | the `URLSearchParams.get` observer the `set` lemmas are stated with: a value found for a name is stored under that name |
| `RouteGuard.SetLeavesOneValue` | middleware.ts:20 | after `searchParams.set`, the name holds exactly the one value set, overwriting earlier values |
| `RouteGuard.SetKeepsOthers` | middleware.ts:18-20 | `set` keeps every pair under another name, in order |
| `RouteGuard.OtherNameUnaffected` | middleware.ts:18-20 | lookups of any other name give the same results after `set` |
| `RouteGuard.NextUrl.Clone` | middleware.ts:18 | the clone holds the request URL exactly |
| `RouteGuard.NextUrl.SetPathname` | middleware.ts:19 | only the pathname changes |
| `RouteGuard.NextUrl.SetSearchParam` | middleware.ts:20 | only the query changes, by `set` |
| `RouteGuard.Middleware` | middleware.ts:6-25 | the clone-and-mutate construction gives exactly the decision `Route` |
| `RouteGuard.RedirectIff` | middleware.ts:13-17 | a request is redirected if and only if there is no user and the path is protected |
| `RouteGuard.RedirectTarget` | middleware.ts:17-21 | the redirect goes to `/login`, carries the original path as the only `redirectedFrom` value, and keeps origin, hash and all other query pairs in order |
| `RouteGuard.SignedInPasses` | middleware.ts:17-24 | a signed-in user is never redirected, whatever the path |
| `RouteGuard.UnprotectedPasses` | middleware.ts:13-24 | an unprotected path passes through even without a user |
| `RouteGuard.RedirectTargetPasses` | middleware.ts:13-19 | the login URL the guard redirects to is itself let through, so the redirect cannot loop |
| `RouteGuard.RawPrefix` | middleware.ts:13-15 | the prefix test is raw: `/dashboardX` and `/projectsfoo` are protected, `/` is not |
| `RouteGuard.MatchedIsProtected` | middleware.ts:13-29 | every path the matcher runs the middleware for is a protected one |
| `RouteGuard.ServeRedirectsIff` | middleware.ts:27-29 | a served request is redirected if and only if there is no user and the path matches `/dashboard/:path*` or `/projects/:path*` |
| `Debounce.Step` | src/hooks/useDebouncedCallback.ts:9-16 | no contract of its own; characterised by StepKeepsInv, TicksAdd, FiresLatest |
| `Debounce.Run` | src/hooks/useDebouncedCallback.ts:9-16 | no contract of its own; characterised by RunKeepsInv, InvocationsBounded, PendingIsLatest, BurstCoalesces, BurstFiresOnce, SpacedFireEach |
| `Debounce.StepKeepsInv` | src/hooks/useDebouncedCallback.ts:8-19 | every event keeps the invariant: invocations plus pending timer never exceed calls, and the deadline lies at most `delay` ahead |
| `Debounce.RunKeepsInv` | src/hooks/useDebouncedCallback.ts:8-19 | every run of events keeps that invariant |
| `Debounce.TicksAdd` | src/hooks/useDebouncedCallback.ts:14-16 | two ticks act exactly as one tick of their total length |
| `Debounce.InvocationsBounded` | src/hooks/useDebouncedCallback.ts:8-19 | the callback never runs more often than the debounced function was called |
| `Debounce.PendingIsLatest` | src/hooks/useDebouncedCallback.ts:9-16 | the pending timer carries the most recent call's arguments and is due `delay` after that call |
| `Debounce.FiresLatest` | src/hooks/useDebouncedCallback.ts:14-16 | a tick runs the callback exactly when the deadline is reached, with the latest call's arguments, `delay` after that call; otherwise nothing runs |
| `Debounce.BurstCoalesces` | src/hooks/useDebouncedCallback.ts:10-14 | calls less than `delay` apart never run the callback and leave one timer, for the last call |
| `Debounce.BurstFiresOnce` | src/hooks/useDebouncedCallback.ts:10-16 | such a burst followed by a quiet period of at least `delay` runs the callback exactly once, with the last arguments |
| `Debounce.SpacedFireEach` | src/hooks/useDebouncedCallback.ts:10-16 | calls at least `delay` apart each run the callback once, in order, with their own arguments, `delay` after each call |
| `Debounce.EditorBurst` | src/hooks/useDebouncedCallback.ts:10-16 | with the 800 ms delay the schedule editor passes, edits at 0, 200 and 400 ms run nothing before 1200 ms and then one write of the 400 ms snapshot |
| `Debounce.Debouncer.constructor` | src/hooks/useDebouncedCallback.ts:5-6 | the timeout slot starts empty and the delay defaults to 500 |
| `Debounce.Debouncer.Call` | src/hooks/useDebouncedCallback.ts:9-17 | the pending timer is replaced by one for these arguments, due `delay` from now |
| `Debounce.Debouncer.Tick` | src/hooks/useDebouncedCallback.ts:14-16 | time moves on; the callback runs, with the pending arguments, exactly when the deadline was reached |
| `Toasts.WithId` | src/components/Toaster.tsx:84-87 | the toast gets the given id; title, description and tone are copied unchanged |
| `Toasts.RemoveId` | src/components/Toaster.tsx:26 | the result holds exactly the toasts whose id differs |
| `Toasts.KeepsRelativeOrder` | src/components/Toaster.tsx:26 | expiry keeps every other toast in its relative order |
| `Toasts.RemoveAbsentId` | src/components/Toaster.tsx:26 | expiring an id that no toast carries leaves the list unchanged |
| `Toasts.Receive` | src/components/Toaster.tsx:24-27 | no contract of its own; characterised by ReceiveKeepsInv, ReceiveShowsReceived, ShownUntilExpiry |
| `Toasts.FireDue` | src/components/Toaster.tsx:25-26 | no contract of its own; characterised by FireDueLeavesSuffix, FireDueStops, FireDueKeepsTimerIds, FireDueSpares, FireDueAll |
| `Toasts.Advance` | src/components/Toaster.tsx:25-26 | no contract of its own; characterised by AdvanceKeepsInv, AdvanceAdditive, AdvanceShowsReceived, ShownUntilExpiry |
| `Toasts.ReceiveKeepsInv` | src/components/Toaster.tsx:24-27 | arrival keeps the timers sorted and in the coming 4000 ms, and every toast shown has its removal pending |
| `Toasts.AdvanceKeepsInv` | src/components/Toaster.tsx:25-27 | running the due timers keeps that invariant |
| `Toasts.AdvanceAdditive` | src/components/Toaster.tsx:25-27 | two ticks act exactly as one tick of their total length, so the lemmas about one tick cover any split of time |
| `Toasts.ShownUntilExpiry` | src/components/Toaster.tsx:24-27 | a toast with a fresh id is shown if and only if less than 4000 ms have passed since it arrived |
| `Toasts.ReceiveShowsReceived` | src/components/Toaster.tsx:15-27 | after an arrival, the list still holds only received toasts whose removal is pending |
| `Toasts.AdvanceShowsReceived` | src/components/Toaster.tsx:15-27 | after time passes, the list still holds only received toasts whose removal is pending |
| `Toasts.DecimalInjective` | src/components/Toaster.tsx:86 | the oracle's ids are rendered injectively, so distinct draws give distinct ids |
| `Toasts.IdOracle.RandomUuid` | src/components/Toaster.tsx:86 | each id handed out is one never handed out before |
| `Toasts.Toaster.constructor` | src/components/Toaster.tsx:15 | the list starts empty |
| `Toasts.Toaster.HandleToast` | src/components/Toaster.tsx:23-28 | the toast is appended at the end and its removal is scheduled 4000 ms from now |
| `Toasts.Toaster.Expire` | src/components/Toaster.tsx:26 | the list becomes the filter of the old list by the id |
| `Toasts.Toaster.RunDue` | src/components/Toaster.tsx:25-27 | every due timer runs, in order, each filtering out its id |
| `Toasts.Toaster.Tick` | src/components/Toaster.tsx:25-27 | time moves on, due removals run, and the list keeps holding only received, unexpired toasts |
| `Toasts.ShowToast` | src/components/Toaster.tsx:84-89 | the toast shown carries an id no earlier toast had, with the caller's fields, and is appended with its removal scheduled |

## Left out

- Supabase authentication: `supabase.auth.getUser()` is not modelled. Its result is the input `Option<User>`. The cookies the auth helper may set on the response are not modelled either.
- Next.js request and response objects: only the pathname, the query, and (as `origin` and `hash`) the rest of the URL are kept. The URL's string serialisation and percent-encoding are not modelled.
- RouteGuard.MatchesConfig: the framework's path-pattern matching is approximated as "the base path or anything below it". Trailing-slash and locale handling are not modelled.
- ProjectSchedule.Entry: on an array it returns `undefined` for every key. That is exact for the three keys read, which are not array indices.
- JSON numbers are `real`: floating-point behaviour plays no part in the shape check.
- Debounce.Debouncer: the delay is fixed per object. React's re-creation of the debounced function when `callback` or `delay` changes is not modelled, and neither is the timer surviving an unmount.
- Debounce.Debouncer.Tick: it returns the arguments to call the callback with. The asynchronous callback's own work (the editor's network write) is not modelled.
- Timer clamping and ordering rules of the browser's `setTimeout` beyond "due timers run in deadline order, ties in scheduling order" are not modelled.
- Toasts: rendering, `createPortal`, styles and the `mounted` gate are not modelled. The window event bus is not modelled either: `ShowToast` hands the toast straight to the listener, as the synchronous `dispatchEvent` does.
- Toasts.IdOracle: the ids are not UUIDs. Only their distinctness is modelled.
- Not part of this model:
  - the schedule editor's field edits and save status;
  - the sharing panel and the share-link and invite endpoints;
  - the Supabase client wrappers;
  - the pages.
