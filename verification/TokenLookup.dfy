/** The token list of the gateway and its cached index. Base64 and SHA-256 are behind the
    uninterpreted predicate `hashMatches`, which is false on an empty hash because an empty
    string does not decode to the 48 bytes of hash and salt. */
module TokenLookup {
  import opened Common

  datatype ClientToken = ClientToken(hash: string, clientName: string, appId: string, issuedAt: string)

  datatype CheckResult = Accepted(clientName: string) | NoValidTokens | InvalidToken

  const PER_RUNTIME_NAME := "Per-Runtime Token"
  const INVALIDATED := ClientToken("something", "something", "something", "20250101")

  class ClientTokenManager {
    const perRuntimeToken: string
    const hashMatches: (string, string) -> bool
    var clientTokens: seq<ClientToken>
    var recentTokenIndex: nat
    var forceClearFile: bool

    ghost predicate Valid()
      reads this
    {
      (recentTokenIndex == 0 || recentTokenIndex < |clientTokens|)
      && forall token :: !hashMatches("", token)
    }

    constructor (perRuntimeToken: string, hashMatches: (string, string) -> bool, fromFile: seq<ClientToken>)
      requires forall token :: !hashMatches("", token)
      ensures Valid() && clientTokens == fromFile
      ensures this.perRuntimeToken == perRuntimeToken && this.hashMatches == hashMatches
    {
      this.perRuntimeToken, this.hashMatches := perRuntimeToken, hashMatches;
      clientTokens, recentTokenIndex, forceClearFile := fromFile, 0, false;
    }

    /** CompareHashAndToken: any hash is good for the per-runtime token, even an empty one. */
    predicate Matches(entry: ClientToken, token: string) {
      perRuntimeToken == token || hashMatches(entry.hash, token)
    }

    /** The plain search: the first matching entry, or the length of the list. */
    function FirstMatch(tokens: seq<ClientToken>, token: string): (i: nat)
      ensures i <= |tokens|
      ensures i < |tokens| ==> Matches(tokens[i], token)
      ensures forall k | 0 <= k < i :: !Matches(tokens[k], token)
    {
      if tokens == [] then 0
      else if Matches(tokens[0], token) then 0
      else 1 + FirstMatch(tokens[1..], token)
    }

    /** What a search without any cache accepts. */
    predicate Acceptable(tokens: seq<ClientToken>, token: string) {
      (perRuntimeToken != "" && token == perRuntimeToken) || FirstMatch(tokens, token) < |tokens|
    }

    /** The look-up of CheckToken, after the handshake. It succeeds exactly when the plain
        search would, or the token is the non-empty per-runtime token; what it names is an
        entry that matches, which then is the cached one: the previously cached entry if that
        matches, else the one the plain search finds. */
    method CheckToken(token: string) returns (r: CheckResult)
      requires Valid()
      modifies this`recentTokenIndex
      ensures Valid()
      ensures perRuntimeToken != "" && token == perRuntimeToken ==>
                r == Accepted("Per-Runtime Token") && recentTokenIndex == old(recentTokenIndex)
      ensures !(perRuntimeToken != "" && token == perRuntimeToken) ==>
                var first := FirstMatch(clientTokens, token);
                && (r == NoValidTokens <==> clientTokens == [])
                && (r.Accepted? <==> first < |clientTokens|)
                && (r.Accepted? ==>
                      && recentTokenIndex < |clientTokens|
                      && Matches(clientTokens[recentTokenIndex], token)
                      && r.clientName == clientTokens[recentTokenIndex].clientName
                      && (recentTokenIndex == old(recentTokenIndex) || recentTokenIndex == first))
                && (!r.Accepted? ==> recentTokenIndex == old(recentTokenIndex))
    {
      if perRuntimeToken != "" && perRuntimeToken == token {
        return Accepted(PER_RUNTIME_NAME);
      }
      if |clientTokens| == 0 {
        return NoValidTokens;
      }
      var recentToken := clientTokens[recentTokenIndex];
      if Matches(recentToken, token) {
        return Accepted(recentToken.clientName);
      }
      var idx := 0;
      while idx < |clientTokens|
        invariant idx <= |clientTokens|
        invariant recentTokenIndex == old(recentTokenIndex)
        invariant forall k | 0 <= k < idx :: !Matches(clientTokens[k], token)
      {
        if idx != recentTokenIndex && |clientTokens[idx].hash| != 0 && Matches(clientTokens[idx], token) {
          recentTokenIndex := idx;
          return Accepted(clientTokens[idx].clientName);
        }
        idx := idx + 1;
      }
      return InvalidToken;
    }

    method ForceUpdate()
      requires Valid()
      modifies this
      ensures Valid() && clientTokens == [] && forceClearFile && recentTokenIndex == 0
    {
      forceClearFile := true;
      recentTokenIndex := 0;
      clientTokens := [];
    }

    /** `parsed` is the list after unmarshalling, None when that failed. */
    method DecodeTokenJdoc(parsed: Option<seq<ClientToken>>)
      requires Valid()
      modifies this`clientTokens, this`recentTokenIndex
      ensures Valid() && recentTokenIndex == 0
      ensures clientTokens == if parsed.Some? then parsed.value
                              else [ClientToken("something", "something", "something", "20250101")]
    {
      recentTokenIndex := 0;
      match parsed
      case Some(tokens) => clientTokens := tokens;
      case None => clientTokens := [INVALIDATED];
    }

    /** The acceptance condition in terms of hashes alone: besides a stored hash that matches,
        only the per-runtime token is accepted, and when that is empty only while entries exist. */
    lemma AcceptanceCondition(tokens: seq<ClientToken>, token: string)
      ensures Acceptable(tokens, token) <==>
              (token == perRuntimeToken && (perRuntimeToken != "" || tokens != []))
              || (exists i :: 0 <= i < |tokens| && hashMatches(tokens[i].hash, token))
    {
      assert FirstMatch(tokens, token) == |tokens| ==> forall i | 0 <= i < |tokens| :: !Matches(tokens[i], token);
    }
  }

  /** While there is no per-runtime token, the empty token is accepted as soon as anything is stored:
      the comparison takes it for the per-runtime token. */
  lemma EmptyTokenAccepted(m: ClientTokenManager, entry: ClientToken)
    requires m.Valid() && m.perRuntimeToken == ""
    ensures m.Acceptable([entry], "") && !m.hashMatches("", "") && !m.Acceptable([], "")
  {
    assert m.Matches(entry, "");
  }

  /** One call in a sequential history of the manager. */
  datatype Call = Check(token: string) | Force | Decode(parsed: Option<seq<ClientToken>>)

  /** The token list that a history of calls leaves, by the last call that replaced it. */
  function TokensAfter(tokens: seq<ClientToken>, calls: seq<Call>): seq<ClientToken> {
    if calls == [] then tokens
    else match calls[|calls| - 1]
      case Check(_) => TokensAfter(tokens, calls[..|calls| - 1])
      case Force => []
      case Decode(None) => [INVALIDATED]
      case Decode(Some(parsed)) => parsed
  }

  /** Over any sequential history every check answers as the plain search over the list of
      that moment would: the cached index changes no decision. */
  method Replay(m: ClientTokenManager, calls: seq<Call>) returns (results: seq<Option<CheckResult>>)
    requires m.Valid()
    modifies m
    ensures m.Valid() && m.clientTokens == TokensAfter(old(m.clientTokens), calls)
    ensures |results| == |calls|
    ensures forall i | 0 <= i < |calls| && calls[i].Check? ::
              results[i].Some? && (results[i].value.Accepted? <==>
                m.Acceptable(TokensAfter(old(m.clientTokens), calls[..i]), calls[i].token))
  {
    results := [];
    assert calls[..0] == [];
    for i := 0 to |calls|
      invariant m.Valid() && m.clientTokens == TokensAfter(old(m.clientTokens), calls[..i])
      invariant |results| == i
      invariant forall k | 0 <= k < i && calls[k].Check? ::
                  results[k].Some? && (results[k].value.Accepted? <==>
                    m.Acceptable(TokensAfter(old(m.clientTokens), calls[..k]), calls[k].token))
    {
      assert calls[..i + 1][..i] == calls[..i];
      match calls[i]
      case Check(token) =>
        var r := m.CheckToken(token);
        results := results + [Some(r)];
      case Force =>
        m.ForceUpdate();
        results := results + [None];
      case Decode(parsed) =>
        m.DecodeTokenJdoc(parsed);
        results := results + [None];
    }
    assert calls[..|calls|] == calls;
  }
}
