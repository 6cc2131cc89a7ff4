/** The calculator page as an object: the rank inputs and the labels beside
    them are arrays the handlers write in place, the result and the share
    link are fields, and local and session storage are maps. The methods
    are the page's handlers: `calculateAll`, a slot's change handler,
    `reset`, the slot-loading loop of page load and the sign-in stages. */
module Page {
  import opened Text
  import opened Scoring
  import opened Ranks
  import opened Pkce
  import opened Auth

  /** How the sign-in step of a page load ended. */
  datatype Outcome =
    | FetchedUser(request: Request)     // a cached token: the user fetch was sent
    | LoginOffered(link: Request)       // stage 1: the login button carries this link
    | StateMismatch                     // stage 2 threw: the returned state is not the saved one
    | TokenRefused(request: Request)    // stage 3: the token endpoint answered with an error
    | TokenCached(request: Request)     // stage 3: the token was cached

  /** One of the first `n` slots takes its piece of the split saved string. */
  predicate AnyTaken(pieces: seq<string>, n: nat) {
    n > 0 && (AnyTaken(pieces, n - 1) || Takes(pieces, n - 1))
  }

  lemma {:induction false} AnyTakenMeans(pieces: seq<string>, n: nat)
    ensures AnyTaken(pieces, n) <==> exists i :: 0 <= i < n && Takes(pieces, i)
  {
    if n > 0 {
      AnyTakenMeans(pieces, n - 1);
      if Takes(pieces, n - 1) {
        assert 0 <= n - 1 < n && Takes(pieces, n - 1);
      }
    }
  }

  class Page {
    /** The `.rank` inputs, in document order. */
    const slots: array<string>
    /** The point label beside each input. */
    const labels: array<string>
    /** `window.location.href`. */
    const href: string
    /** `window.location.origin + window.location.pathname`. */
    const redirectUri: string
    /** The number shown in `#result`. */
    var result: int
    /** The value of the `#link` input. */
    var link: string
    var local: map<string, string>
    var session: map<string, string>

    predicate Valid()
      reads this
    {
      slots.Length == labels.Length && slots != labels
    }

    /** What `calculateAll` leaves behind: the rounded total, the saved
        slots in storage and the share link, all of the current slots. */
    ghost predicate Synced()
      reads this, slots
    {
      var saved := Serialize(slots[..]);
      && result == Round(Total(slots[..]))
      && Get(local, RecordsKey) == Some(saved)
      && link == ShareLink(href, saved)
    }

    /** A page of `n` blank inputs with blank labels. */
    constructor (n: nat, href: string, redirectUri: string,
                 local: map<string, string>, session: map<string, string>)
      ensures Valid()
      ensures slots.Length == n && fresh(slots) && fresh(labels)
      ensures forall i :: 0 <= i < n ==> slots[i] == "" && labels[i] == ""
      ensures this.href == href && this.redirectUri == redirectUri
      ensures this.local == local && this.session == session
      ensures result == 0 && link == ""
    {
      slots := new string[n](_ => "");
      labels := new string[n](_ => "");
      this.href := href;
      this.redirectUri := redirectUri;
      this.local := local;
      this.session := session;
      result := 0;
      link := "";
    }

    /** `calculateAll`: sums the scores of the slots that hold a rank,
        emits every slot followed by `:` (a slot without a rank as
        blank), and writes the rounded total, the `records` item and the
        share link. */
    method CalculateAll()
      requires Valid()
      modifies this
      ensures Valid()
      ensures Synced()
      ensures result == Round(Total(slots[..]))
      ensures local == old(local)[RecordsKey := Serialize(slots[..])]
      ensures link == ShareLink(href, Serialize(slots[..]))
      ensures session == old(session)
    {
      var total := 0.0;
      var saveRanks := "";
      for i := 0 to slots.Length
        invariant total == Total(slots[..i])
        invariant saveRanks == Serialize(slots[..i])
      {
        var value := slots[i];
        var rank := ParseNat(value);
        if rank.Some? {
          total := total + CalculatePoint(rank.value);
        } else {
          value := "";
        }
        saveRanks := saveRanks + value + ":";
        assert slots[..i + 1][..i] == slots[..i];
      }
      assert slots[..slots.Length] == slots[..];
      result := Round(total);
      local := local[RecordsKey := saveRanks];
      link := BeforeQuery(href) + "?ranks=" + saveRanks;
    }

    /** The change handler of input `i`: its label shows the truncated
        score of its text, then `calculateAll` runs. */
    method Change(i: nat)
      requires Valid() && i < slots.Length
      modifies this, labels
      ensures Valid()
      ensures labels[..] == old(labels[..])[i := SlotLabel(slots[i])]
      ensures Synced()
      ensures local == old(local)[RecordsKey := Serialize(slots[..])]
      ensures session == old(session)
    {
      labels[i] := SlotLabel(slots[i]);
      CalculateAll();
    }

    /** `reset`: once confirmed, blanks every input (each change handler
        runs), shows 0, saves `n` colons and links to them; not confirmed,
        nothing changes. */
    method Reset(confirmed: bool)
      requires Valid()
      modifies this, slots, labels
      ensures Valid()
      ensures !confirmed ==> unchanged(this, slots, labels)
      ensures confirmed ==>
        && (forall i :: 0 <= i < slots.Length ==> slots[i] == "" && labels[i] == "")
        && result == 0
        && local == old(local)[RecordsKey := Colons(slots.Length)]
        && link == ShareLink(href, Colons(slots.Length))
        && session == old(session)
        && Synced()
    {
      var saveRanks := "";
      if confirmed {
        for i := 0 to slots.Length
          invariant saveRanks == Colons(i)
          invariant forall j :: 0 <= j < i ==> slots[j] == "" && labels[j] == ""
          invariant AgreeBesideRecords(local, old(local))
          invariant session == old(session)
        {
          slots[i] := "";
          Change(i);
          saveRanks := saveRanks + ":";
        }
        result := 0;
        local := local[RecordsKey := saveRanks];
        link := BeforeQuery(href) + "?ranks=" + saveRanks;
        SameExceptRecords(local, old(local), saveRanks);
        BlankSlots(slots.Length);
        assert slots[..] == seq(slots.Length, _ => "");
      }
    }

    /** One step of the slot-loading loop: slot `i` takes piece `i` when
        that piece exists and holds a rank, and its change handler runs. */
    method LoadSlot(pieces: seq<string>, i: nat)
      requires Valid() && i < slots.Length
      modifies this, slots, labels
      ensures Valid()
      ensures session == old(session)
      ensures !Takes(pieces, i) ==> unchanged(this, slots, labels)
      ensures Takes(pieces, i) ==>
        && slots[..] == old(slots[..])[i := pieces[i]]
        && labels[..] == old(labels[..])[i := SlotLabel(pieces[i])]
        && Synced() && local == old(local)[RecordsKey := Serialize(slots[..])]
    {
      if i < |pieces| && ParseNat(pieces[i]).Some? {
        slots[i] := pieces[i];
        Change(i);
      }
    }

    /** The slot-loading loop over the pieces of the split saved string. */
    method LoadPieces(pieces: seq<string>)
      requires Valid()
      modifies this, slots, labels
      ensures Valid()
      ensures session == old(session)
      ensures slots[..] == Loaded(old(slots[..]), pieces, slots.Length)
      ensures labels[..] == Relabelled(old(labels[..]), pieces, labels.Length)
      ensures AnyTaken(pieces, slots.Length) ==> Synced()
      ensures !AnyTaken(pieces, slots.Length) ==> result == old(result) && local == old(local) && link == old(link)
      ensures AgreeBesideRecords(local, old(local))
    {
      ghost var taken := false;
      var i := 0;
      while i < slots.Length
        invariant i <= slots.Length
        invariant slots[..] == Loaded(old(slots[..]), pieces, i)
        invariant labels[..] == Relabelled(old(labels[..]), pieces, i)
        invariant taken <==> AnyTaken(pieces, i)
        invariant taken ==> Synced()
        invariant !taken ==> result == old(result) && local == old(local) && link == old(link)
        invariant AgreeBesideRecords(local, old(local))
        invariant session == old(session)
      {
        LoadedStep(old(slots[..]), pieces, i);
        RelabelledStep(old(labels[..]), pieces, i);
        LoadSlot(pieces, i);
        taken := taken || Takes(pieces, i);
        i := i + 1;
      }
    }

    /** The slot-loading part of page load: the saved string is a
        non-empty `ranks` parameter, else the stored records; it is split
        on `:` and each slot whose piece holds a rank takes that piece,
        after which its change handler runs. Other slots, and the page
        when nothing is saved, are left as they are. */
    method LoadRanks(ranksParam: Option<string>)
      requires Valid()
      modifies this, slots, labels
      ensures Valid()
      ensures session == old(session)
      ensures ChosenRanks(ranksParam, old(local)).None? ==> unchanged(this, slots, labels)
      ensures ChosenRanks(ranksParam, old(local)).Some? ==>
        var pieces := SplitColon(ChosenRanks(ranksParam, old(local)).value);
        && slots[..] == LoadSlots(old(slots[..]), ChosenRanks(ranksParam, old(local)).value)
        && labels[..] == Relabelled(old(labels[..]), pieces, labels.Length)
        && (AnyTaken(pieces, slots.Length) ==>
              Synced() && local == old(local)[RecordsKey := Serialize(slots[..])])
        && (!AnyTaken(pieces, slots.Length) ==>
              result == old(result) && local == old(local) && link == old(link))
      ensures AgreeBesideRecords(local, old(local))
    {
      var savedRanks := ChosenRanks(ranksParam, local);
      if savedRanks.Some? {
        var pieces := SplitColon(savedRanks.value);
        LoadPieces(pieces);
        LoadedAll(old(slots[..]), savedRanks.value);
        if AnyTaken(pieces, slots.Length) {
          SameExceptRecords(local, old(local), Serialize(slots[..]));
        }
      }
    }

    /** The sign-in stages of page load, for the `code` and `state` query
        parameters, the time `now` in seconds, the 64 draws of each random
        string, the digest and `btoa`, and the token endpoint's answer
        (none for an HTTP error). */
    method Authenticate(code: Option<string>, returnedState: Option<string>, now: nat,
                        verifierDraws: seq<Draw>, stateDraws: seq<Draw>,
                        sha256: string -> seq<bv8>, btoa: seq<bv8> -> string,
                        response: Option<TokenResponse>)
      returns (outcome: Outcome)
      requires |verifierDraws| == 64 && |stateDraws| == 64
      modifies this
      ensures result == old(result) && link == old(link)
      ensures
        var stage := SelectStage(old(local), old(session), code, returnedState, now);
        var verifier, state := Pick(verifierDraws), Pick(stateDraws);
        match stage
        case FetchUser =>
          && outcome == FetchedUser(UserRequest(old(local)))
          && local == old(local) && session == old(session)
        case Authorize =>
          && outcome == LoginOffered(AuthorizationRequest(redirectUri, CodeChallenge(verifier, sha256, btoa), state))
          && session == StoreVerifier(old(session), verifier, state)
          && local == old(local)
        case Reject =>
          && outcome == StateMismatch
          && local == old(local) && session == old(session)
        case Exchange(c) =>
          var request := TokenRequest(redirectUri, Get(old(session), VerifierKey), c);
          && session == old(session)
          && (response.None? ==> outcome == TokenRefused(request) && local == old(local))
          && (response.Some? ==>
                outcome == TokenCached(request) && local == CacheToken(old(local), response.value, now))
    {
      var stage := SelectStage(local, session, code, returnedState, now);
      match stage
      case FetchUser =>
        outcome := FetchedUser(UserRequest(local));
      case Authorize =>
        var request := BeginLogin(verifierDraws, stateDraws, sha256, btoa);
        outcome := LoginOffered(request);
      case Reject =>
        outcome := StateMismatch;
      case Exchange(c) =>
        outcome := ExchangeCode(c, now, response);
    }

    /** Stage 1: two random strings of 64 characters become the code
        verifier and the state, both kept in session storage, and the
        login link carries the verifier's S256 challenge and the state. */
    method BeginLogin(verifierDraws: seq<Draw>, stateDraws: seq<Draw>,
                      sha256: string -> seq<bv8>, btoa: seq<bv8> -> string)
      returns (request: Request)
      requires |verifierDraws| == 64 && |stateDraws| == 64
      modifies this
      ensures request == AuthorizationRequest(redirectUri,
                           CodeChallenge(Pick(verifierDraws), sha256, btoa), Pick(stateDraws))
      ensures session == StoreVerifier(old(session), Pick(verifierDraws), Pick(stateDraws))
      ensures local == old(local) && result == old(result) && link == old(link)
    {
      var verifier := GenerateRandomString(64, verifierDraws);
      var state := GenerateRandomString(64, stateDraws);
      session := session[VerifierKey := verifier];
      session := session[StateKey := state];
      var challenge := CodeChallenge(verifier, sha256, btoa);
      request := AuthorizationRequest(redirectUri, challenge, state);
    }

    /** Stages 2 and 3 once the state matched: the code and the stored
        verifier are sent to the token endpoint; on success the token
        type, the token (blank when missing) and the expiry, now plus
        `expires_in` (0 when missing), are cached. */
    method ExchangeCode(code: string, now: nat, response: Option<TokenResponse>)
      returns (outcome: Outcome)
      modifies this
      ensures var request := TokenRequest(redirectUri, Get(old(session), VerifierKey), code);
        && (response.None? ==> outcome == TokenRefused(request) && local == old(local))
        && (response.Some? ==>
              outcome == TokenCached(request) && local == CacheToken(old(local), response.value, now))
      ensures session == old(session) && result == old(result) && link == old(link)
    {
      var request := TokenRequest(redirectUri, Get(session, VerifierKey), code);
      if response.None? {
        outcome := TokenRefused(request);
      } else {
        var answer := response.value;
        var expiry := now + answer.expiresIn.GetOr(0);
        local := local[TokenTypeKey := answer.tokenType.GetOr("")];
        local := local[AccessTokenKey := answer.accessToken.GetOr("")];
        local := local[ExpirationKey := ShowNat(expiry)];
        outcome := TokenCached(request);
      }
    }

    /** The `DOMContentLoaded` handler after the handlers are attached:
        the slots are loaded from the `ranks` parameter or storage, then
        the sign-in stages run on the `code` and `state` parameters. The
        stage is the one the storages select as they were before loading,
        and the token is cached over the loaded local storage. */
    method OnLoad(query: Fields, now: nat,
                  verifierDraws: seq<Draw>, stateDraws: seq<Draw>,
                  sha256: string -> seq<bv8>, btoa: seq<bv8> -> string,
                  response: Option<TokenResponse>)
      returns (outcome: Outcome)
      requires Valid()
      requires |verifierDraws| == 64 && |stateDraws| == 64
      modifies this, slots, labels
      ensures Valid()
      ensures
        var chosen := ChosenRanks(Lookup(query, "ranks"), old(local));
        var taken := chosen.Some? && AnyTaken(SplitColon(chosen.value), slots.Length);
        && (chosen.None? ==> slots[..] == old(slots[..]) && labels[..] == old(labels[..]))
        && (chosen.Some? ==>
              && slots[..] == LoadSlots(old(slots[..]), chosen.value)
              && labels[..] == Relabelled(old(labels[..]), SplitColon(chosen.value), labels.Length))
        && (taken ==> result == Round(Total(slots[..])) && link == ShareLink(href, Serialize(slots[..])))
        && (!taken ==> result == old(result) && link == old(link))
      ensures
        var chosen := ChosenRanks(Lookup(query, "ranks"), old(local));
        var taken := chosen.Some? && AnyTaken(SplitColon(chosen.value), slots.Length);
        var loaded := if taken then old(local)[RecordsKey := Serialize(slots[..])] else old(local);
        var stage := SelectStage(old(local), old(session), Lookup(query, "code"), Lookup(query, "state"), now);
        var verifier, state := Pick(verifierDraws), Pick(stateDraws);
        match stage
        case FetchUser =>
          && outcome == FetchedUser(UserRequest(old(local)))
          && local == loaded && session == old(session)
        case Authorize =>
          && outcome == LoginOffered(AuthorizationRequest(redirectUri, CodeChallenge(verifier, sha256, btoa), state))
          && session == StoreVerifier(old(session), verifier, state)
          && local == loaded
        case Reject =>
          && outcome == StateMismatch
          && local == loaded && session == old(session)
        case Exchange(c) =>
          var request := TokenRequest(redirectUri, Get(old(session), VerifierKey), c);
          && session == old(session)
          && (response.None? ==> outcome == TokenRefused(request) && local == loaded)
          && (response.Some? ==>
                outcome == TokenCached(request) && local == CacheToken(loaded, response.value, now))
    {
      LoadRanks(Lookup(query, "ranks"));
      ghost var loaded := local;
      RecordsIgnored(old(local), loaded, session, Lookup(query, "code"), Lookup(query, "state"), now);
      outcome := Authenticate(Lookup(query, "code"), Lookup(query, "state"), now,
                              verifierDraws, stateDraws, sha256, btoa, response);
    }
  }

  /** The slots after the loading loop has visited the first `n`. */
  function Loaded(cur: seq<string>, pieces: seq<string>, n: nat): (r: seq<string>)
    ensures |r| == |cur|
  {
    seq(|cur|, j requires 0 <= j < |cur| => if j < n && Takes(pieces, j) then pieces[j] else cur[j])
  }

  /** The labels after the loading loop has visited the first `n` slots:
      a slot that took its piece shows that piece's label. */
  function Relabelled(cur: seq<string>, pieces: seq<string>, n: nat): (r: seq<string>)
    ensures |r| == |cur|
    ensures forall j :: 0 <= j < |cur| ==>
      r[j] == if j < n && Takes(pieces, j) then SlotLabel(pieces[j]) else cur[j]
  {
    seq(|cur|, j requires 0 <= j < |cur| => if j < n && Takes(pieces, j) then SlotLabel(pieces[j]) else cur[j])
  }

  lemma LoadedStep(cur: seq<string>, pieces: seq<string>, i: nat)
    requires i < |cur|
    ensures Loaded(cur, pieces, 0) == cur
    ensures Loaded(cur, pieces, i + 1) ==
      if Takes(pieces, i) then Loaded(cur, pieces, i)[i := pieces[i]] else Loaded(cur, pieces, i)
  {
  }

  lemma RelabelledStep(cur: seq<string>, pieces: seq<string>, i: nat)
    requires i < |cur|
    ensures Relabelled(cur, pieces, 0) == cur
    ensures Relabelled(cur, pieces, i + 1) ==
      if Takes(pieces, i) then Relabelled(cur, pieces, i)[i := SlotLabel(pieces[i])] else Relabelled(cur, pieces, i)
  {
  }

  /** A loop over every slot loads the whole saved string. */
  lemma LoadedAll(cur: seq<string>, saved: string)
    ensures Loaded(cur, SplitColon(saved), |cur|) == LoadSlots(cur, saved)
  {
  }

  /** Loading the slots cannot change the sign-in stage or the user
      fetch: only `records` differs, and they read the expiry and the
      cached token alone. */
  lemma RecordsIgnored(before: map<string, string>, after: map<string, string>,
                       session: map<string, string>, code: Option<string>,
                       returnedState: Option<string>, now: nat)
    requires AgreeBesideRecords(after, before)
    ensures SelectStage(after, session, code, returnedState, now) ==
            SelectStage(before, session, code, returnedState, now)
    ensures UserRequest(after) == UserRequest(before)
  {
    assert Get(after, ExpirationKey) == Get(before, ExpirationKey);
    assert Get(after, TokenTypeKey) == Get(before, TokenTypeKey);
    assert Get(after, AccessTokenKey) == Get(before, AccessTokenKey);
  }

  /** Two storages that hold the same items, `records` aside. */
  ghost predicate AgreeBesideRecords(m: map<string, string>, o: map<string, string>) {
    forall k :: k != RecordsKey ==> Get(m, k) == Get(o, k)
  }

  /** A map that agrees with another except at `records`, updated there,
      is the other updated there. */
  lemma SameExceptRecords(m: map<string, string>, o: map<string, string>, saved: string)
    requires Get(m, RecordsKey) == Some(saved)
    requires AgreeBesideRecords(m, o)
    ensures m == o[RecordsKey := saved]
  {
    var updated := o[RecordsKey := saved];
    forall k ensures Get(m, k) == Get(updated, k) {
      if k != RecordsKey {
        assert Get(updated, k) == Get(o, k);
      }
    }
    assert forall k :: k in m <==> Get(m, k).Some?;
    assert forall k :: k in updated <==> Get(updated, k).Some?;
  }
}
