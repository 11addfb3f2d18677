/**
 * The view guards: `require_hacker` denies a signed-in caller without a
 * hacker profile, and the two section guards built on it send the request
 * to an alternative handler depending on the caller's completed components.
 *
 * A view is a read-only handler of the store and the request; a guard turns
 * one view into another. Each guard's choice is also given as a first-order
 * decision, which the state-changing setup views use directly.
 */
module Decorators {

  import opened Wrappers
  import opened Http
  import opened HackerModels

  type Handler = (Store, Request) -> Response

  /** `request.user.hacker`: the signed-in user's profile, if it exists. */
  function ProfileOf(s: Store, u: User): (r: Option<Hacker>)
    ensures r.Some? <==> u.SignedIn? && u.username in s.hackers
  {
    if u.SignedIn? && u.username in s.hackers then Some(s.hackers[u.username]) else None
  }

  // ---------------------------------------------------------------------------
  // The guards, composed as in the source
  // ---------------------------------------------------------------------------

  /** `login_required`: anonymous callers are sent to the login page. */
  function LoginRequired(view: Handler): Handler
  {
    (s: Store, r: Request) => if r.user.IsAuthenticated() then view(s, r) else RedirectToLogin(r.path)
  }

  /** `require_hacker`: a caller without a profile is refused, any other reaches the view. */
  function RequireHacker(view: Handler): Handler
  {
    LoginRequired((s: Store, r: Request) => if ProfileOf(s, r.user).None? then Forbidden else view(s, r))
  }

  /**
   * The inner wrapper of `require_unset_component`. On its own it reads the
   * profile unconditionally; a missing one is an unhandled lookup error.
   */
  function UnsetComponentWrapper(component: string, alternative: Handler, view: Handler): Handler
  {
    (s: Store, r: Request) =>
      match ProfileOf(s, r.user)
      case None => ServerError
      case Some(h) => if HasComponent(h, component) then alternative(s, r) else view(s, r)
  }

  /** `require_unset_component(component, alternative)(view)`. */
  function RequireUnsetComponent(component: string, alternative: Handler, view: Handler): Handler
  {
    RequireHacker(UnsetComponentWrapper(component, alternative, view))
  }

  /** The inner wrapper of `require_setup_completed`. */
  function SetupCompletedWrapper(alternative: Handler, view: Handler): Handler
  {
    (s: Store, r: Request) =>
      match ProfileOf(s, r.user)
      case None => ServerError
      case Some(h) => if FirstUnset(HackerComponents, Completed(h)).Some? then alternative(s, r) else view(s, r)
  }

  /** `require_setup_completed(alternative)(view)`. */
  function RequireSetupCompleted(alternative: Handler, view: Handler): Handler
  {
    RequireHacker(SetupCompletedWrapper(alternative, view))
  }

  // ---------------------------------------------------------------------------
  // The same choices as decisions
  // ---------------------------------------------------------------------------

  datatype Decision = ToLogin | Deny | ToAlternative | ToView

  /** Carrying out a decision: exactly one of the four outcomes, on the same store and request. */
  function Dispatch(d: Decision, s: Store, r: Request, alternative: Handler, view: Handler): Response
  {
    match d
    case ToLogin => RedirectToLogin(r.path)
    case Deny => Forbidden
    case ToAlternative => alternative(s, r)
    case ToView => view(s, r)
  }

  /** The choice of `require_hacker`. */
  function HackerDecision(s: Store, r: Request): (d: Decision)
    ensures d != ToAlternative
    ensures d == ToView <==> ProfileOf(s, r.user).Some?
    ensures d == ToLogin <==> !r.user.IsAuthenticated()
  {
    if !r.user.IsAuthenticated() then ToLogin
    else if ProfileOf(s, r.user).None? then Deny
    else ToView
  }

  /** The choice of `require_unset_component(component, ...)`. */
  function UnsetComponentDecision(component: string, s: Store, r: Request): (d: Decision)
    ensures d == ToAlternative <==> ProfileOf(s, r.user).Some? && HasComponent(ProfileOf(s, r.user).value, component)
    ensures d == ToView <==> ProfileOf(s, r.user).Some? && !HasComponent(ProfileOf(s, r.user).value, component)
    ensures d in {ToLogin, Deny} ==> d == HackerDecision(s, r)
  {
    var d := HackerDecision(s, r);
    if d != ToView then d
    else if HasComponent(ProfileOf(s, r.user).value, component) then ToAlternative
    else ToView
  }

  /** The choice of `require_setup_completed(...)`. */
  function SetupCompletedDecision(s: Store, r: Request): (d: Decision)
    ensures d == ToView <==>
              (ProfileOf(s, r.user).Some? &&
               forall i :: 0 <= i < |HackerComponents| ==> HasComponent(ProfileOf(s, r.user).value, HackerComponents[i]))
    ensures d == ToAlternative <==>
              (ProfileOf(s, r.user).Some? &&
               exists i :: 0 <= i < |HackerComponents| && !HasComponent(ProfileOf(s, r.user).value, HackerComponents[i]))
    ensures d in {ToLogin, Deny} ==> d == HackerDecision(s, r)
  {
    var d := HackerDecision(s, r);
    if d != ToView then d
    else
      var h := ProfileOf(s, r.user).value;
      FirstUnsetSpec(HackerComponents, Completed(h));
      if FirstUnset(HackerComponents, Completed(h)).Some? then ToAlternative else ToView
  }

  // ---------------------------------------------------------------------------
  // What the composed guards do
  // ---------------------------------------------------------------------------

  /** `require_hacker` returns the view's own result for a caller with a profile. */
  lemma RequireHackerDecides(view: Handler, s: Store, r: Request)
    ensures RequireHacker(view)(s, r) == Dispatch(HackerDecision(s, r), s, r, view, view)
  {
  }

  /** The composed `require_unset_component` makes exactly the decision above. */
  lemma RequireUnsetComponentDecides(component: string, alternative: Handler, view: Handler, s: Store, r: Request)
    ensures RequireUnsetComponent(component, alternative, view)(s, r)
            == Dispatch(UnsetComponentDecision(component, s, r), s, r, alternative, view)
  {
  }

  /** The composed `require_setup_completed` makes exactly the decision above. */
  lemma RequireSetupCompletedDecides(alternative: Handler, view: Handler, s: Store, r: Request)
    ensures RequireSetupCompleted(alternative, view)(s, r)
            == Dispatch(SetupCompletedDecision(s, r), s, r, alternative, view)
  {
  }

  /**
   * A caller without a profile is refused by every guard before any
   * component is looked at, whatever the component, alternative and view;
   * an anonymous caller is sent to log in first.
   */
  lemma NoProfileIsDenied(component: string, alternative: Handler, view: Handler, s: Store, r: Request)
    requires ProfileOf(s, r.user).None?
    ensures r.user.IsAuthenticated() ==>
              && RequireHacker(view)(s, r) == Forbidden
              && RequireUnsetComponent(component, alternative, view)(s, r) == Forbidden
              && RequireSetupCompleted(alternative, view)(s, r) == Forbidden
    ensures !r.user.IsAuthenticated() ==>
              && RequireHacker(view)(s, r) == RedirectToLogin(r.path)
              && RequireUnsetComponent(component, alternative, view)(s, r) == RedirectToLogin(r.path)
              && RequireSetupCompleted(alternative, view)(s, r) == RedirectToLogin(r.path)
  {
  }

  /** The completed-setup guard lets the view run exactly in the last of the n+1 setup states. */
  lemma SetupCompletedIffFinalState(alternative: Handler, view: Handler, s: Store, r: Request)
    requires ProfileOf(s, r.user).Some?
    ensures SetupCompletedDecision(s, r) == ToView
            <==> SetupState(HackerComponents, Completed(ProfileOf(s, r.user).value)) == |HackerComponents|
  {
    SetupStateResolves(HackerComponents, Completed(ProfileOf(s, r.user).value));
  }

  /** Once a step's component is set, its guard always sends the caller to the alternative. */
  lemma SetComponentGoesToAlternative(component: string, alternative: Handler, view: Handler, s: Store, r: Request)
    requires ProfileOf(s, r.user).Some? && HasComponent(ProfileOf(s, r.user).value, component)
    ensures RequireUnsetComponent(component, alternative, view)(s, r) == alternative(s, r)
  {
    RequireUnsetComponentDecides(component, alternative, view, s, r);
  }
}
