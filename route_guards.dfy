/** The request checks of the Flask server (server/app.py): the bearer-token
    rule of the `requires_auth` decorator, the input guards with which the
    `chat` and `search_food_route` handlers answer before doing any work, and
    the answers of `get_food_details_route`. Token verification and the USDA
    search are passed in as functions. */
module RouteGuards {
  import opened Wrappers
  import opened PyText
  import opened NutriInsights

  // ---------------------------------------------------------------------
  // requires_auth
  // ---------------------------------------------------------------------

  /** The body and status code of an `AuthError` response. */
  datatype AuthError = AuthError(code: string, description: string, status: int)

  const HeaderMissing := AuthError("authorization_header_missing", "Authorization header is expected.", 401)
  const InvalidToken := AuthError("invalid_token", "The token is invalid or expired.", 401)

  const BearerPrefix := "Bearer "

  /** Lines 38-45: the token `requires_auth` hands to verification, the second
      field of the header split at single spaces, or the 401 answer for a
      header that is absent, empty or not a bearer header. */
  function BearerToken(header: Option<string>): (r: Result<string, AuthError>)
    ensures r.Failure? <==> header.None? || !StartsWith(header.value, BearerPrefix)
    ensures r.Failure? ==> r.error == HeaderMissing
  {
    if header.None? || !StartsWith(header.value, BearerPrefix) then Failure(HeaderMissing)
    else
      BearerFields(header.value);
      Success(Split(header.value, ' ')[1])
  }

  /** A bearer header has a second field, the first field of what follows
      "Bearer ". */
  lemma BearerFields(h: string)
    requires StartsWith(h, BearerPrefix)
    ensures |Split(h, ' ')| >= 2 && Split(h, ' ')[1] == Split(h[|BearerPrefix|..], ' ')[0]
  {
    var rest := h[|BearerPrefix|..];
    assert h == "Bearer" + [' '] + rest;
    SplitAfterField("Bearer", ' ', rest);
  }

  /** The token is the text after "Bearer " up to the next space (or the end):
      it has no space in it, and what follows it, if anything, is a space. */
  lemma TokenIsFirstWord(h: string)
    requires StartsWith(h, BearerPrefix)
    ensures var token := BearerToken(Some(h)).value;
      var rest := h[|BearerPrefix|..];
      && ' ' !in token
      && StartsWith(rest, token)
      && (|token| == |rest| || rest[|token|] == ' ')
  {
    BearerFields(h);
    FirstField(h[|BearerPrefix|..], ' ');
  }

  /** "Bearer " followed by a token without spaces hands exactly that token on. */
  lemma BearerTokenRoundTrip(token: string)
    requires ' ' !in token
    ensures BearerToken(Some(BearerPrefix + token)) == Success(token)
  {
    var h := BearerPrefix + token;
    assert h[..|BearerPrefix|] == BearerPrefix;
    assert h[|BearerPrefix|..] == token;
    BearerFields(h);
    FirstFieldOfSpaceless(token);
  }

  /** A string without the separator is its own single field. */
  lemma {:induction false} FirstFieldOfSpaceless(s: string)
    requires ' ' !in s
    ensures Split(s, ' ') == [s]
  {
    if s != [] {
      FirstFieldOfSpaceless(s[1..]);
      assert [s[0]] + s[1..] == s;
    }
  }

  /** `requires_auth` as a whole: the header rule, then the verification
      oracle (None when `verify_custom_token` raises), whose payload becomes
      the request's current user. */
  function Authenticate<P>(header: Option<string>, verify: string -> Option<P>): (r: Result<P, AuthError>)
    ensures r.Failure? ==> r.error.status == 401
    ensures header.None? ==> r == Failure(HeaderMissing)
    ensures r.Success? <==> BearerToken(header).Success? && verify(BearerToken(header).value).Some?
    ensures r.Success? ==> r.value == verify(BearerToken(header).value).value
    ensures BearerToken(header).Success? && r.Failure? ==> r.error == InvalidToken
  {
    match BearerToken(header)
    case Failure(e) => Failure(e)
    case Success(token) =>
      match verify(token)
      case None => Failure(InvalidToken)
      case Some(payload) => Success(payload)
  }

  /** A rejected header is rejected whatever the verification would say. */
  lemma HeaderCheckedFirst<P>(header: Option<string>, v1: string -> Option<P>, v2: string -> Option<P>)
    requires BearerToken(header).Failure?
    ensures Authenticate(header, v1) == Authenticate(header, v2) == Failure(HeaderMissing)
  {
  }

  // ---------------------------------------------------------------------
  // chat (lines 160-166)
  // ---------------------------------------------------------------------

  /** One element of `messages`; `content` is None when the key is absent. */
  datatype ChatMessage = ChatMessage(role: Option<string>, content: Option<string>)

  /** A parsed request body: its `messages` list, None when absent or null. */
  datatype ChatBody = ChatBody(messages: Option<seq<ChatMessage>>)

  /** What the guard of `chat` decides: answer at once with an error, or go on
      to the model with the history and the last message's content. */
  datatype ChatGate = ChatRefused(status: int, error: string) | ChatAdmitted(history: seq<ChatMessage>, lastMessage: string)

  /** `body` is None when `request.get_json()` gives no object, which makes
      `data.get` raise and the handler answer 500. */
  function CheckChat(body: Option<ChatBody>): (r: ChatGate)
    ensures r.ChatRefused? ==> r == ChatRefused(400, "No messages provided") || r == ChatRefused(500, "Internal server error")
    ensures r == ChatRefused(500, "Internal server error") <==> body.None?
    ensures r == ChatRefused(400, "No messages provided") <==> body.Some? && (body.value.messages.None? || body.value.messages.value == [])
    ensures r.ChatAdmitted? ==> r.history != [] && body == Some(ChatBody(Some(r.history)))
  {
    match body
    case None => ChatRefused(500, "Internal server error")
    case Some(data) =>
      var history := data.messages.GetOr([]);
      if history == [] then ChatRefused(400, "No messages provided")
      else ChatAdmitted(history, history[|history| - 1].content.GetOr(""))
  }

  /** A non-empty history is admitted whole, with the content of its last
      message ("" when that message has none). */
  lemma ChatAdmitsHistory(history: seq<ChatMessage>)
    requires history != []
    ensures CheckChat(Some(ChatBody(Some(history)))) == ChatAdmitted(history, history[|history| - 1].content.GetOr(""))
  {
  }

  // ---------------------------------------------------------------------
  // search_food_route (lines 250-259)
  // ---------------------------------------------------------------------

  datatype SearchReply = SearchRefused(status: int, error: string) | SearchResults(results: seq<FoodSummary>)

  /** The query parameter `q` (None when absent) and the USDA search, given as
      a function of the query. */
  function SearchFood(q: Option<string>, search: string -> SearchResponse): (r: SearchReply)
    ensures r == SearchRefused(400, "Query parameter \"q\" is required") <==> q.None? || q.value == ""
    ensures r == SearchRefused(502, "Error from external API") <==>
      q.Some? && q.value != "" && (search(q.value).hasError || search(q.value).hasErrors)
    ensures r.SearchResults? <==> q.Some? && q.value != "" && !search(q.value).hasError && !search(q.value).hasErrors
    ensures r.SearchResults? ==> r.results == ParseSearchResults(search(q.value))
  {
    if q.None? || q.value == "" then SearchRefused(400, "Query parameter \"q\" is required")
    else
      var response := search(q.value);
      if response.hasError || response.hasErrors then SearchRefused(502, "Error from external API")
      else SearchResults(ParseSearchResults(response))
  }

  /** Without a query the upstream search is never consulted. */
  lemma NoSearchWithoutQuery(q: Option<string>, s1: string -> SearchResponse, s2: string -> SearchResponse)
    requires q.None? || q.value == ""
    ensures SearchFood(q, s1) == SearchFood(q, s2)
  {
  }

  // ---------------------------------------------------------------------
  // get_food_details_route (lines 268-276)
  // ---------------------------------------------------------------------

  datatype DetailsReply = DetailsRefused(status: int, error: string) | DetailsFound(food: ParsedFood)

  /** The route for fetched `details`; `upstreamError` says whether they carry
      a truthy `Error` or `error` field. A nutrient without a name makes
      `parse_food_details` raise, which the handler answers with 500. */
  function FoodDetailsRoute(details: FoodDetails, upstreamError: bool, round2: real -> real): (r: DetailsReply)
    ensures upstreamError ==> r == DetailsRefused(404, "Food not found or API error")
    ensures !upstreamError ==>
      (r.DetailsFound? <==> forall j :: 0 <= j < |details.foodNutrients| ==> details.foodNutrients[j].name.Some?)
    ensures !upstreamError && r.DetailsRefused? ==> r == DetailsRefused(500, "Internal server error")
    ensures r.DetailsFound? ==> FoodDetailsOf(details, round2) == Success(r.food)
  {
    FoodDetailsFields(details, round2, Calories, "");
    if upstreamError then DetailsRefused(404, "Food not found or API error")
    else
      match FoodDetailsOf(details, round2)
      case Success(food) => DetailsFound(food)
      case Failure(_) => DetailsRefused(500, "Internal server error")
  }
}
