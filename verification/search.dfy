/** The product search endpoint: the query guard, the choice of response
    body, and the browser's launch and close around the scraping work. */
module Search {
  import opened Options
  import opened Extraction

  const NoQueryMessage: string := "No query provided"
  const NoProductsMessage: string := "No products found"
  const FailureMessage: string := "Something went wrong"

  /** The JSON body of a response. `products` and `error` are left out of
      the JSON when they are None; `status` is a field of the body, not the
      transport's status code. */
  datatype Body = Body(
    success: bool,
    status: int,
    products: Option<seq<Product>>,
    error: Option<string>)

  /** The body of a failed request. */
  function ErrorBody(status: int, message: string): Body {
    Body(false, status, None, Some(message))
  }

  /** The message a failure status carries. */
  function MessageFor(status: int): string {
    if status == 400 then NoQueryMessage
    else if status == 404 then NoProductsMessage
    else FailureMessage
  }

  /** The shape every body the endpoint returns has: success exactly on
      status 200, a non-empty list of well-formed records exactly on
      success, and otherwise the error message belonging to the status. */
  predicate Consistent(b: Body) {
    && b.status in {200, 400, 404, 500}
    && (b.success <==> b.status == 200)
    && (b.products.Some? <==> b.success)
    && (b.error.Some? <==> !b.success)
    && (b.error.Some? ==> b.error.value == MessageFor(b.status))
    && (b.products.Some? ==>
         b.products.value != [] && forall p :: p in b.products.value ==> WellFormed(p))
  }

  /** `query` is truthy: the parameter is present and is not the empty
      string. A query of spaces only is truthy. */
  predicate QueryGiven(query: Option<string>) {
    query.Some? && query.value != []
  }

  /** What the browser work left behind: the result cards of the rendered
      page, or an exception raised anywhere from launch to extraction. */
  datatype Outcome = Failed | Rendered(cards: seq<Card>)

  /** The body the endpoint answers with, for a query parameter and the
      outcome of the browser work (not consulted when the query is missing). */
  function Respond(query: Option<string>, outcome: Outcome): (r: Body)
    ensures Consistent(r)
    ensures !QueryGiven(query) ==> r == ErrorBody(400, NoQueryMessage)
    ensures r.status == 400 <==> !QueryGiven(query)
    ensures r.status == 500 <==> QueryGiven(query) && outcome.Failed?
    ensures r.status == 404 <==>
      && QueryGiven(query) && outcome.Rendered?
      && forall i :: 0 <= i < |outcome.cards| ==> !Titled(outcome.cards[i])
    ensures r.status == 200 <==>
      && QueryGiven(query) && outcome.Rendered?
      && exists i :: 0 <= i < |outcome.cards| && Titled(outcome.cards[i])
    ensures r.success ==> outcome.Rendered? && r.products == Some(BuildProducts(outcome.cards))
  {
    if !QueryGiven(query) then ErrorBody(400, NoQueryMessage)
    else
      match outcome
      case Failed => ErrorBody(500, FailureMessage)
      case Rendered(cards) =>
        var products := BuildProducts(cards);
        BuildProductsEmptyIff(cards);
        BuildProductsWellFormed(cards);
        if |products| == 0 then ErrorBody(404, NoProductsMessage)
        else Body(true, 200, Some(products), None)
  }

  /** How the browser session went. `LaunchFailed`: an exception before the
      browser existed (finding the executable or launching it). `Launched`:
      the browser was up, the work ended in `outcome`, and closing it in the
      `finally` block either succeeded or threw. */
  datatype Session =
    | LaunchFailed
    | Launched(outcome: Outcome, closeThrows: bool)

  /** The outcome of the browser work a session stands for. */
  function SessionOutcome(session: Session): Outcome {
    match session
    case LaunchFailed => Failed
    case Launched(outcome, _) => outcome
  }

  /** The resource events of one request, in order. */
  datatype Event = Launch | Close

  /** How the handler ends: it returns a body, or an exception thrown by
      `close` in the `finally` block replaces the pending return. */
  datatype Exit = Returned(body: Body) | Threw

  datatype Run = Run(exit: Exit, events: seq<Event>)

  /** The number of occurrences of `e` in `events`. */
  function Count(events: seq<Event>, e: Event): nat {
    if events == [] then 0
    else (if events[0] == e then 1 else 0) + Count(events[1..], e)
  }

  /** One request from start to finish: the query guard, the `try` block
      (launch, scrape, choose 404 or 200), the `catch` (500) and the
      `finally` block, which closes the browser whenever one was launched. */
  function Handle(query: Option<string>, session: Session): (run: Run)
    ensures !QueryGiven(query) ==> run == Run(Returned(ErrorBody(400, NoQueryMessage)), [])
    ensures Launch in run.events <==> QueryGiven(query) && session.Launched?
    ensures Count(run.events, Launch) == Count(run.events, Close) <= 1
    ensures Launch in run.events ==> run.events[|run.events| - 1] == Close
    ensures run.exit.Threw? <==> QueryGiven(query) && session.Launched? && session.closeThrows
    ensures run.exit.Returned? ==> run.exit.body == Respond(query, SessionOutcome(session))
  {
    if !QueryGiven(query) then Run(Returned(Respond(query, Failed)), [])
    else
      match session
      case LaunchFailed => Run(Returned(Respond(query, Failed)), [])
      case Launched(outcome, closeThrows) =>
        var pending := Respond(query, outcome);
        Run(if closeThrows then Threw else Returned(pending), [Launch, Close])
  }

  /** Whatever path a request takes, every launched browser is closed
      before the handler exits, and no browser is closed that was not
      launched. */
  lemma BrowserReleased(query: Option<string>, session: Session)
    ensures var events := Handle(query, session).events;
      forall i :: 0 <= i < |events| && events[i] == Launch ==>
        exists j :: i < j < |events| && events[j] == Close
    ensures var events := Handle(query, session).events;
      forall j :: 0 <= j < |events| && events[j] == Close ==>
        exists i :: 0 <= i < j && events[i] == Launch
  {
    var events := Handle(query, session).events;
    if events != [] {
      assert events == [Launch, Close];
    }
  }
}
