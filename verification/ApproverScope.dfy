/** Who may decide: the scope check of the decide call, the inbox predicate that repeats it in
    SQL, and the promise between them. */
module ApproverScope {
  import opened ExecutionRows
  import opened Text
  import opened JsonPointer
  import opened ApprovalRules
  import opened ExecutionInvariants

  const SCOPE_KEY := "role_codes"

  // ---- the decide call ---------------------------------------------------------------------------

  /** blanks is what trimming removes: all white space here, spaces in SQL btrim. */
  predicate ValidCode(j: Json, blanks: Blanks) {
    j.Str? && Trim(j.s, blanks) != ""
  }

  predicate AllValid(codes: seq<Json>, blanks: Blanks) {
    forall k :: 0 <= k < |codes| ==> ValidCode(codes[k], blanks)
  }

  predicate HasRoleCodes(scope: Json) {
    && scope.Obj? && scope.fields.Keys == {SCOPE_KEY}
    && scope.fields[SCOPE_KEY].Arr? && scope.fields[SCOPE_KEY].items != []
  }

  predicate Open(scope: Json) {
    scope.Null? || scope == Obj(map[])
  }

  function Trimmed(codes: seq<Json>, blanks: Blanks): (r: seq<string>)
    requires forall k :: 0 <= k < |codes| ==> codes[k].Str?
    ensures |r| == |codes| && forall k :: 0 <= k < |codes| ==> r[k] == Trim(codes[k].s, blanks)
  {
    seq(|codes|, k requires 0 <= k < |codes| => Trim(codes[k].s, blanks))
  }

  /** The required role codes; None when the permission to decide is enough. */
  method ValidateApproverScope(scope: Json) returns (result: Result<Option<seq<string>>>)
    ensures result == Ok(None) <==> Open(scope)
    ensures result.Ok? && result.value.Some? ==>
      && HasRoleCodes(scope) && AllValid(scope.fields[SCOPE_KEY].items, WhiteSpace)
      && result.value.value == Trimmed(scope.fields[SCOPE_KEY].items, WhiteSpace)
    ensures result.Err? <==> !Open(scope) && !(HasRoleCodes(scope) && AllValid(scope.fields[SCOPE_KEY].items, WhiteSpace))
    ensures result.Err? ==> result.error == ResourceConflict
  {
    if scope.Null? { return Ok(None); }
    if !scope.Obj? { return Err(ResourceConflict); }
    if scope.fields == map[] { return Ok(None); }
    if scope.fields.Keys != {SCOPE_KEY} { return Err(ResourceConflict); }
    var codes := scope.fields[SCOPE_KEY];
    if !codes.Arr? || codes.items == [] { return Err(ResourceConflict); }
    var normalized := [];
    for k := 0 to |codes.items|
      invariant forall j :: 0 <= j < k ==> ValidCode(codes.items[j], WhiteSpace)
      invariant |normalized| == k && forall j :: 0 <= j < k ==> normalized[j] == Trim(codes.items[j].s, WhiteSpace)
    {
      if !codes.items[k].Str? || Trim(codes.items[k].s, WhiteSpace) == "" { return Err(ResourceConflict); }
      normalized := normalized + [Trim(codes.items[k].s, WhiteSpace)];
    }
    result := Ok(Some(normalized));
  }

  /** The roles a closed scope lets in, under one way of trimming; none when it is malformed. */
  ghost function Admitted(scope: Json, blanks: Blanks): set<string> {
    if !HasRoleCodes(scope) then {}
    else
      var codes := scope.fields[SCOPE_KEY].items;
      if AllValid(codes, blanks) then set k | 0 <= k < |codes| :: Trim(codes[k].s, blanks)
      else {}
  }

  /** The scope part of the decide call for an actor with the given roles. */
  method CheckScope(scope: Json, roles: set<string>) returns (refusal: Option<AppError>)
    ensures refusal == ScopeRefusal(scope, roles)
  {
    var required := ValidateApproverScope(scope);
    if required.Err? { return Some(required.error); }
    if required.value.None? { return None; }
    var codes := required.value.value;
    var matches := exists k :: 0 <= k < |codes| && codes[k] in roles;
    if matches {
      var k :| 0 <= k < |codes| && codes[k] in roles;
      assert codes[k] in Admitted(scope, WhiteSpace) * roles;
      return None;
    }
    assert forall r :: r in Admitted(scope, WhiteSpace) ==> r in codes;
    return Some(Forbidden);
  }

  ghost function ScopeRefusal(scope: Json, roles: set<string>): Option<AppError> {
    if Open(scope) then None
    else if !HasRoleCodes(scope) then Some(ResourceConflict)
    else
      var codes := scope.fields[SCOPE_KEY].items;
      if !AllValid(codes, WhiteSpace) then Some(ResourceConflict)
      else if Admitted(scope, WhiteSpace) * roles != {} then None
      else Some(Forbidden)
  }

  /** One of the codes, trimmed, is a role of the actor. */
  ghost predicate SomeCodeIn(codes: seq<Json>, roles: set<string>) {
    exists k :: 0 <= k < |codes| && codes[k].Str? && Strip(codes[k].s) in roles
  }

  ghost predicate AllNamed(codes: seq<Json>) {
    codes != [] && forall k :: 0 <= k < |codes| ==> codes[k].Str? && !AllIn(codes[k].s, WhiteSpace)
  }

  ghost predicate ScopeOf(scope: Json, codes: seq<Json>) {
    scope == Obj(map["role_codes" := Arr(codes)]) && AllNamed(codes)
  }

  /** Who gets past a scope: everyone where it is null or empty; where it is a list of codes with
      something in each, and nothing else, exactly those with one of the roles; and nobody, for
      another reason, where it is anything else. */
  lemma ScopeMeans(scope: Json, roles: set<string>)
    ensures ScopeRefusal(scope, roles).None? <==>
      || scope.Null? || scope == Obj(map[])
      || exists codes :: ScopeOf(scope, codes) && SomeCodeIn(codes, roles)
    ensures ScopeRefusal(scope, roles) == Some(Forbidden) <==> exists codes :: ScopeOf(scope, codes) && !SomeCodeIn(codes, roles)
  {
    hide Trim;
    if HasRoleCodes(scope) {
      var codes := scope.fields[SCOPE_KEY].items;
      CodesNamed(codes);
      assert scope == Obj(map["role_codes" := Arr(codes)]);
      if AllNamed(codes) { CodesMeet(scope, codes, roles); }
      assert ScopeOf(scope, codes) <==> AllNamed(codes);
    }
    forall codes | ScopeOf(scope, codes) ensures HasRoleCodes(scope) && scope.fields[SCOPE_KEY].items == codes {
      assert "role_codes" in scope.fields;
    }
  }

  lemma CodesNamed(codes: seq<Json>)
    ensures codes != [] ==> (AllValid(codes, WhiteSpace) <==> AllNamed(codes))
  {
    forall k | 0 <= k < |codes| ensures ValidCode(codes[k], WhiteSpace) <==> codes[k].Str? && !AllIn(codes[k].s, WhiteSpace) {
      if codes[k].Str? { TrimBare(codes[k].s, WhiteSpace); }
    }
  }

  lemma CodesMeet(scope: Json, codes: seq<Json>, roles: set<string>)
    requires HasRoleCodes(scope) && scope.fields[SCOPE_KEY].items == codes && AllValid(codes, WhiteSpace)
    ensures Admitted(scope, WhiteSpace) * roles != {} <==> SomeCodeIn(codes, roles)
  {
    hide Trim;
    if k :| 0 <= k < |codes| && codes[k].Str? && Strip(codes[k].s) in roles {
      assert Strip(codes[k].s) in Admitted(scope, WhiteSpace) * roles;
    }
    if r :| r in Admitted(scope, WhiteSpace) * roles {
      var k :| 0 <= k < |codes| && Trim(codes[k].s, WhiteSpace) == r;
    }
  }

  // ---- the inbox -----------------------------------------------------------------------------------

  /** The PostgreSQL predicate; a scope that is SQL null reads as JSON null. */
  predicate PgScopeClause(scope: Json, roles: set<string>) {
    || Open(scope)
    || (roles != {}
        && scope.Obj? && SCOPE_KEY in scope.fields && |scope.fields.Keys| == 1
        && scope.fields[SCOPE_KEY].Arr? && |scope.fields[SCOPE_KEY].items| > 0
        && (forall k :: 0 <= k < |scope.fields[SCOPE_KEY].items| ==>
              scope.fields[SCOPE_KEY].items[k].Str? && Trim(scope.fields[SCOPE_KEY].items[k].s, Spaces) != "")
        && exists k :: 0 <= k < |scope.fields[SCOPE_KEY].items| &&
             scope.fields[SCOPE_KEY].items[k].Str? && Trim(scope.fields[SCOPE_KEY].items[k].s, Spaces) in roles)
  }

  lemma OneKey(keys: set<string>)
    ensures SCOPE_KEY in keys && |keys| == 1 <==> keys == {SCOPE_KEY}
  {
    if SCOPE_KEY in keys && |keys| == 1 {
      assert |keys - {SCOPE_KEY}| == 0;
      assert keys == {SCOPE_KEY} + (keys - {SCOPE_KEY});
    }
  }

  lemma Meets(admitted: set<string>, role: string)
    ensures admitted * {role} != {} <==> role in admitted
  {
    if role in admitted { assert role in admitted * {role}; }
  }

  lemma InboxMeans(scope: Json, roles: set<string>)
    ensures PgScopeClause(scope, roles) <==> Open(scope) || Admitted(scope, Spaces) * roles != {}
  {
    hide Trim;
    if scope.Obj? { OneKey(scope.fields.Keys); }
    if HasRoleCodes(scope) {
      var codes := scope.fields[SCOPE_KEY].items;
      if r :| r in Admitted(scope, Spaces) * roles {
        var k :| 0 <= k < |codes| && Trim(codes[k].s, Spaces) == r;
      }
      if k :| 0 <= k < |codes| && codes[k].Str? && Trim(codes[k].s, Spaces) in roles && AllValid(codes, Spaces) {
        assert Trim(codes[k].s, Spaces) in Admitted(scope, Spaces) * roles;
      }
    }
  }

  lemma DecideMeans(scope: Json, roles: set<string>)
    ensures ScopeRefusal(scope, roles).None? <==> Open(scope) || Admitted(scope, WhiteSpace) * roles != {}
  {
  }

  /** If all codes of the scope are valid to the inbox, none has white space left around it
      once its spaces are gone. */
  predicate Tidy(scope: Json) {
    HasRoleCodes(scope) && AllValid(scope.fields[SCOPE_KEY].items, Spaces) ==>
      forall k :: 0 <= k < |scope.fields[SCOPE_KEY].items| ==> TrimsAlike(scope.fields[SCOPE_KEY].items[k])
  }

  predicate TrimsAlike(code: Json) {
    code.Str? ==> Trim(code.s, Spaces) == Trim(code.s, WhiteSpace)
  }

  lemma TidyAdmitsAlike(scope: Json)
    requires Tidy(scope)
    ensures Admitted(scope, Spaces) == Admitted(scope, WhiteSpace)
  {
    hide Trim;
    if HasRoleCodes(scope) {
      var codes := scope.fields[SCOPE_KEY].items;
      if AllValid(codes, Spaces) {
        assert forall k :: 0 <= k < |codes| ==> ValidCode(codes[k], Spaces) && TrimsAlike(codes[k]);
        assert AllValid(codes, WhiteSpace);
      } else {
        var k :| 0 <= k < |codes| && !ValidCode(codes[k], Spaces);
        if codes[k].Str? { TrimBare(codes[k].s, Spaces); TrimBare(codes[k].s, WhiteSpace); }
        assert !ValidCode(codes[k], WhiteSpace);
      }
    }
  }

  /** A code the two ways trim differently is admitted under its spaced form only. */
  lemma UntidyAdmitsUnlike(scope: Json)
    requires !Tidy(scope)
    ensures Admitted(scope, Spaces) != Admitted(scope, WhiteSpace)
  {
    hide Trim, Bare;
    var codes := scope.fields[SCOPE_KEY].items;
    var k :| 0 <= k < |codes| && !TrimsAlike(codes[k]);
    assert ValidCode(codes[k], Spaces);
    TrimsMeet(codes[k].s, Spaces, WhiteSpace);
    var spaced := Trim(codes[k].s, Spaces);
    assert spaced in Admitted(scope, Spaces) && !Bare(spaced, WhiteSpace);
    if spaced in Admitted(scope, WhiteSpace) {
      var j :| 0 <= j < |codes| && Trim(codes[j].s, WhiteSpace) == spaced;
      TrimBare(codes[j].s, WhiteSpace);
    }
  }

  /** Inbox and decide call agree on a scope for every actor exactly when it is tidy. */
  lemma InboxAgrees(scope: Json)
    ensures (forall roles :: PgScopeClause(scope, roles) <==> ScopeRefusal(scope, roles).None?) <==> Tidy(scope)
  {
    hide PgScopeClause, ScopeRefusal, Admitted, Tidy;
    forall roles
      ensures PgScopeClause(scope, roles) <==> Open(scope) || Admitted(scope, Spaces) * roles != {}
      ensures ScopeRefusal(scope, roles).None? <==> Open(scope) || Admitted(scope, WhiteSpace) * roles != {}
    {
      InboxMeans(scope, roles);
      DecideMeans(scope, roles);
    }
    if Tidy(scope) {
      TidyAdmitsAlike(scope);
    } else {
      UntidyAdmitsUnlike(scope);
      OpenIsTidy(scope);
      var role :| role in Admitted(scope, Spaces) + Admitted(scope, WhiteSpace)
        && !(role in Admitted(scope, Spaces) && role in Admitted(scope, WhiteSpace));
      Meets(Admitted(scope, Spaces), role);
      Meets(Admitted(scope, WhiteSpace), role);
      assert PgScopeClause(scope, {role}) != ScopeRefusal(scope, {role}).None?;
    }
  }

  lemma OpenIsTidy(scope: Json)
    ensures Open(scope) ==> Tidy(scope)
  {
  }

  lemma TidyAgrees(scope: Json, roles: set<string>)
    requires Tidy(scope)
    ensures PgScopeClause(scope, roles) <==> ScopeRefusal(scope, roles).None?
  {
    TidyAdmitsAlike(scope);
    InboxMeans(scope, roles);
    DecideMeans(scope, roles);
  }

  /** A tab in front of a code hides the request from an actor who may decide on it; a code
      that is only a tab shows it to one who may not. */
  lemma TabsDisagree()
    ensures var scope := Obj(map[SCOPE_KEY := Arr([Str("\tA")])]);
      !PgScopeClause(scope, {"A"}) && ScopeRefusal(scope, {"A"}).None?
    ensures var scope := Obj(map[SCOPE_KEY := Arr([Str("A"), Str("\t")])]);
      PgScopeClause(scope, {"A"}) && ScopeRefusal(scope, {"A"}) == Some(ResourceConflict)
  {
    TrimsOfTabs();
    TabHides(Obj(map[SCOPE_KEY := Arr([Str("\tA")])]), "\tA", "A");
    TabShows(Obj(map[SCOPE_KEY := Arr([Str("A"), Str("\t")])]), "A", "\t");
  }

  lemma TabHides(scope: Json, code: string, role: string)
    requires scope == Obj(map[SCOPE_KEY := Arr([Str(code)])]) && code != role && role != "" && code != ""
    requires Trim(code, Spaces) == code && Trim(code, WhiteSpace) == role
    ensures !PgScopeClause(scope, {role}) && ScopeRefusal(scope, {role}).None?
  {
    hide Trim, PgScopeClause, ScopeRefusal, Admitted;
    InboxMeans(scope, {role});
    DecideMeans(scope, {role});
    OneCode(scope, code, Spaces);
    OneCode(scope, code, WhiteSpace);
    assert SCOPE_KEY in scope.fields;
    Meets({code}, role);
    Meets({role}, role);
  }

  lemma TabShows(scope: Json, role: string, blank: string)
    requires scope == Obj(map[SCOPE_KEY := Arr([Str(role), Str(blank)])]) && role != "" && blank != ""
    requires Trim(role, Spaces) == role && Trim(blank, Spaces) == blank && Trim(blank, WhiteSpace) == ""
    ensures PgScopeClause(scope, {role}) && ScopeRefusal(scope, {role}) == Some(ResourceConflict)
  {
    hide Trim, PgScopeClause;
    InboxMeans(scope, {role});
    var codes := scope.fields[SCOPE_KEY].items;
    assert codes[0] == Str(role) && codes[1] == Str(blank) && AllValid(codes, Spaces);
    assert role in Admitted(scope, Spaces) * {role};
    assert !ValidCode(codes[1], WhiteSpace);
  }

  lemma OneCode(scope: Json, code: string, blanks: Blanks)
    requires scope == Obj(map[SCOPE_KEY := Arr([Str(code)])]) && Trim(code, blanks) != ""
    ensures Admitted(scope, blanks) == {Trim(code, blanks)}
  {
    hide Trim;
    var codes := scope.fields[SCOPE_KEY].items;
    assert codes[0] == Str(code) && AllValid(codes, blanks);
  }

  lemma TrimsOfTabs()
    ensures Trim("\tA", Spaces) == "\tA" && Trim("\tA", WhiteSpace) == "A"
    ensures Trim("A", Spaces) == "A" && Trim("\t", Spaces) == "\t" && Trim("\t", WhiteSpace) == ""
  {
    assert "\tA"[1..] == "A" && "\t"[1..] == "";
  }

  // ---- what the inbox promises ------------------------------------------------------------------------

  predicate CanDecide(r: RequestRow, actor: UserId, now: Time) {
    r.status.Pending? && now < r.expiresAt && !HasVoted(r.decisions, actor)
  }

  /** The inbox shows the request to the actor. */
  predicate Visible(r: RequestRow, scope: Json, roles: set<string>, actor: UserId, allowSelf: bool) {
    PgScopeClause(scope, roles) && (actor != r.requestedBy || allowSelf)
  }

  /** On an Execution in order, a request the inbox shows as decidable is refused only for what
      the inbox does not look at: changed context, or a rejection without a comment.  And only
      such a request can be decided. */
  lemma DecidableMeansDecides(t: ExecutionRow, q: nat, b: Ballot, scope: Json, roles: set<string>, now: Time)
    requires Inv(t) && q < |t.requests| && b.authorized
    requires Tidy(scope) && b.scopeError == ScopeRefusal(scope, roles)
    ensures var r := t.requests[q];
      Decide(t, q, b, now).result.Ok? <==>
        && Visible(r, scope, roles, b.actor, b.allowSelf) && CanDecide(r, b.actor, now)
        && b.contextError.None? && !(b.vote.Reject? && b.commentRequired && !b.commented)
  {
    var r := t.requests[q];
    assert RequestOk(r, |t.steps|);
    TidyAgrees(scope, roles);
    if r.status.Pending? {
      PendingWaits(t, q);
      if Refusal(r, b).None? { assert r.required >= 1; }
    }
  }

  lemma PendingWaits(t: ExecutionRow, q: nat)
    requires Inv(t) && q < |t.requests| && t.requests[q].status.Pending?
    ensures t.status.WaitingApproval? && t.steps[t.requests[q].step].status.WaitingApproval?
    ensures t.requests[q].required >= 1
  {
    InvariantMeans(t);
    assert RequestOk(t.requests[q], |t.steps|);
  }
}
