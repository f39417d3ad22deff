// The page's sign-in state: the user it holds, the copy it persists, and
// the role links it shows, with the sign-in, restore and sign-out steps
// that change them.

module AuthSession {
  import opened Wrappers
  import opened Http
  import opened Store
  import opened ApiClient
  import UserEndpoints
  import PhotoEndpoints

  /** The profile the page keeps: the backend's user object, or one decoded from the token offline. */
  datatype SessionUser = SessionUser(userId: JsId, email: Option<string>, name: Option<string>, picture: Option<string>, role: string)

  /** The claims the offline fallback reads from the token's payload. */
  datatype TokenPayload = TokenPayload(email: Option<string>, name: Option<string>, picture: Option<string>)

  /**
   * `currentUser`: null, undefined (what `data.user` gives for an ok reply
   * without a user) or a profile.
   */
  datatype Held = Nobody | Missing | Holds(user: SessionUser)

  /** The display of `#role-links`, `#creator-link` and `#admin-link`. */
  datatype Links = Links(panelShown: bool, creatorShown: bool, adminShown: bool)

  datatype SessionState = SessionState(currentUser: Held, saved: Held, links: Links) {
    /** `isAuthenticated`: `currentUser !== null`, so an undefined user counts as signed in. */
    predicate IsAuthenticated() {
      currentUser != Nobody
    }

    /** `hasRole`: a held profile with exactly that role. */
    predicate HasRole(role: string) {
      currentUser.Holds? && currentUser.user.role == role
    }

    /** `requireAuth`. */
    predicate RequireAuth() {
      IsAuthenticated()
    }

    /** `requireRole`: signed in, then the role. */
    predicate RequireRole(role: string) {
      RequireAuth() && HasRole(role)
    }
  }

  /** The page's copy of the backend's user object. */
  function FromView(v: UserView): SessionUser {
    SessionUser(Num(v.userId), Some(v.email), Some(v.name), Some(v.picture), v.role)
  }

  /** The profile the offline fallback builds: no id and the consumer role, whatever the account is. */
  function Offline(p: TokenPayload): SessionUser {
    SessionUser(Null, p.email, p.name, p.picture, ConsumerRole)
  }

  /** `data.user` of an ok reply. */
  function UserOfReply(body: Body): Held {
    if body.WithUser? then Holds(FromView(body.user)) else Missing
  }

  /**
   * The role links for a held profile: the panel is shown for a creator or
   * an admin, each with only its own link; otherwise the panel is hidden and
   * the two links keep their display.
   */
  function LinksFor(role: string, before: Links): (l: Links)
    ensures l.panelShown <==> role == CreatorRole || role == AdminRole
    ensures l.panelShown ==> l.creatorShown == (role == CreatorRole) && l.adminShown == (role == AdminRole)
    ensures !l.panelShown ==> l.creatorShown == before.creatorShown && l.adminShown == before.adminShown
  {
    var isCreator := role == CreatorRole;
    var isAdmin := role == AdminRole;
    if isCreator || isAdmin then Links(true, isCreator, isAdmin)
    else before.(panelShown := false)
  }

  /** `updateUIForLoggedInUser`: acts only on a held profile. */
  function ShowUser(s: SessionState): SessionState {
    if s.currentUser.Holds? then s.(links := LinksFor(s.currentUser.user.role, s.links)) else s
  }

  /** The page after `initGoogleSignIn` with `stored` the parsed saved profile, if any. */
  function Restored(stored: Option<SessionUser>, links: Links): SessionState {
    match stored
    case None => SessionState(Nobody, Nobody, links)
    case Some(u) => ShowUser(SessionState(Holds(u), Holds(u), links))
  }

  /**
   * `handleGoogleSignIn` with `reply` the backend's answer (none when the
   * request threw) and `decode` the payload decoding of the token (none
   * when it throws).
   */
  function SignedIn(s: SessionState, token: string, reply: Option<Response>, decode: string -> Option<TokenPayload>): SessionState {
    match reply
    case None => s
    case Some(r) =>
      if !Ok(r.status) then
        match decode(token)
        case None => s
        case Some(p) => ShowUser(SessionState(Holds(Offline(p)), Holds(Offline(p)), s.links))
      else
        var held := UserOfReply(r.body);
        ShowUser(SessionState(held, held, s.links))
  }

  /** `logout`: no user, nothing saved, the panel hidden. */
  function LoggedOut(s: SessionState): SessionState {
    SessionState(Nobody, Nobody, s.links.(panelShown := false))
  }

  /** The shown links never contradict the role: at most one link, and the panel only with one. */
  lemma ShownLinksMatchRole(role: string, before: Links)
    ensures var l := LinksFor(role, before);
      l.panelShown ==>
        (l.creatorShown != l.adminShown) &&
        (l.creatorShown <==> role == CreatorRole) && (l.adminShown <==> role == AdminRole)
  {
  }

  /**
   * For an account as the backend stores it, the creator link is shown
   * exactly when the backend's upload rule accepts the account: admins get
   * the admin link only, and their uploads are refused.
   */
  lemma CreatorLinkMatchesUploadRule(t: Tables, id: UserId, before: Links)
    requires id in t.users
    ensures var l := LinksFor(t.users[id].role, before);
      (l.panelShown && l.creatorShown) <==> PhotoEndpoints.IsCreator(t, Some(id))
  {
  }

  /** A sign-in that could not reach the backend, or whose token would not decode, changes nothing. */
  lemma FailedSignInKeepsSession(s: SessionState, token: string, reply: Option<Response>, decode: string -> Option<TokenPayload>)
    requires reply.None? || (!Ok(reply.value.status) && decode(token).None?)
    ensures SignedIn(s, token, reply, decode) == s
  {
  }

  /**
   * A refused sign-in with a readable token signs the page in offline: a
   * consumer without an id, saved, with the role links hidden.
   */
  lemma OfflineSignIn(s: SessionState, token: string, r: Response, decode: string -> Option<TokenPayload>)
    requires !Ok(r.status) && decode(token).Some?
    ensures var s' := SignedIn(s, token, Some(r), decode);
      s'.IsAuthenticated() && s'.RequireRole(ConsumerRole) && !s'.HasRole(CreatorRole) && !s'.HasRole(AdminRole) &&
      s'.currentUser.user.userId == Null && s'.saved == s'.currentUser && !s'.links.panelShown
  {
  }

  /**
   * An accepted sign-in from the backend's handler holds exactly the account
   * the backend stored: its id, its role, saved for the next visit.
   */
  lemma BackendSignInAdopted(s: SessionState, t: Tables, token: string, verify: string -> Option<Identity>, now: nat,
                             decode: string -> Option<TokenPayload>)
    requires UserEndpoints.SignIn(t, Some(token), verify, now).response.status == 200
    ensures var o := UserEndpoints.SignIn(t, Some(token), verify, now);
      var s' := SignedIn(s, token, Some(o.response), decode);
      s'.currentUser.Holds? && s'.saved == s'.currentUser &&
      var u := s'.currentUser.user;
      u.userId.Num? && u.userId.n in o.tables.users &&
      s'.HasRole(o.tables.users[u.userId.n].role) &&
      u.email == Some(o.tables.users[u.userId.n].email)
  {
    var o := UserEndpoints.SignIn(t, Some(token), verify, now);
    assert Ok(o.response.status);
    assert o.response.body.WithUser?;
  }

  /**
   * An ok reply that carries no user leaves the page signed in with nobody:
   * `requireAuth` passes while no role does.
   */
  lemma OkReplyWithoutUser(s: SessionState, token: string, r: Response, decode: string -> Option<TokenPayload>, role: string)
    requires Ok(r.status) && !r.body.WithUser?
    ensures var s' := SignedIn(s, token, Some(r), decode);
      s'.RequireAuth() && !s'.RequireRole(role) && s'.links == s.links
  {
  }

  /** After sign-out no role check passes and nothing is left saved. */
  lemma LogoutEndsSession(s: SessionState, role: string)
    ensures var s' := LoggedOut(s);
      !s'.IsAuthenticated() && !s'.RequireRole(role) && s'.saved == Nobody && !s'.links.panelShown
  {
  }

  /** Restoring what a sign-in saved gives back the same user. */
  lemma RestoreAfterSignIn(s: SessionState, token: string, reply: Option<Response>, decode: string -> Option<TokenPayload>, links: Links)
    requires SignedIn(s, token, reply, decode).saved.Holds?
    requires s.saved == s.currentUser
    ensures var s' := SignedIn(s, token, reply, decode);
      Restored(Some(s'.saved.user), links).currentUser == s'.currentUser
  {
  }

  /** The module-level state of the sign-in script. */
  class Session {
    var currentUser: Held
    var saved: Held
    var links: Links

    function State(): SessionState
      reads this
    {
      SessionState(currentUser, saved, links)
    }

    /** `initGoogleSignIn`'s restore of a saved profile. */
    constructor (stored: Option<SessionUser>, links0: Links)
      ensures State() == Restored(stored, links0)
    {
      currentUser := Nobody;
      saved := Nobody;
      links := links0;
      new;
      if stored.Some? {
        currentUser := Holds(stored.value);
        saved := Holds(stored.value);
        UpdateUIForLoggedInUser();
      }
    }

    method UpdateUIForLoggedInUser()
      modifies this
      ensures State() == ShowUser(old(State()))
    {
      if currentUser.Holds? {
        var isCreator := currentUser.user.role == CreatorRole;
        var isAdmin := currentUser.user.role == AdminRole;
        if isCreator || isAdmin {
          links := Links(true, isCreator, isAdmin);
        } else {
          links := links.(panelShown := false);
        }
      }
    }

    method HandleGoogleSignIn(token: string, reply: Option<Response>, decode: string -> Option<TokenPayload>)
      modifies this
      ensures State() == SignedIn(old(State()), token, reply, decode)
    {
      if reply.None? {
        return;
      }
      var result := reply.value;
      if !Ok(result.status) {
        var payload := decode(token);
        if payload.None? {
          return;
        }
        currentUser := Holds(Offline(payload.value));
        saved := currentUser;
        UpdateUIForLoggedInUser();
        return;
      }
      currentUser := UserOfReply(result.body);
      saved := currentUser;
      UpdateUIForLoggedInUser();
    }

    method Logout()
      modifies this
      ensures State() == LoggedOut(old(State()))
    {
      currentUser := Nobody;
      saved := Nobody;
      links := links.(panelShown := false);
    }
  }
}
