/** The journal tab's request protocol: month cache, day loads, page loads and aborts.

    `Panel` is a snapshot of everything the component and its pending fetches hold; `Step`
    is what one browser event does to it.  A state update and the effects it triggers are
    one step, and a response is delivered in one step. */
module JournalProtocol {
  import opened Wrappers

  datatype Kind = Equity | OptionContract

  datatype Execution = Execution(kind: Kind, referenceId: int)

  /** The full, fixed list of a date's executions, as the service holds it. */
  type Server = string -> seq<Execution>

  datatype DayView = DayView(date: string, executions: seq<Execution>, hasMore: bool)

  /** A month's roll-up: the month it answers and which reading of the ledger it is. */
  datatype MonthView = MonthView(month: string, revision: nat)

  datatype CacheEntry = CacheEntry(key: string, body: MonthView)

  datatype Request =
    | MonthRequest(month: string)
    | DayRequest(date: string)
    | PageRequest(date: string, offset: nat)

  datatype Flight = Flight(request: Request, aborted: bool)

  /** The month half of the component: cache, flags, and the month channel's controller. */
  datatype MonthPane = MonthPane(
    cache: seq<CacheEntry>,
    requested: set<string>,
    loading: bool,
    error: bool,
    controller: Option<nat>)

  /** The day half: the open day, flags, and the controller day and page loads share. */
  datatype DayPane = DayPane(
    day: Option<DayView>,
    loading: bool,
    error: bool,
    moreLoading: bool,
    moreError: bool,
    controller: Option<nat>)

  datatype Panel = Panel(
    monthKey: string,
    date: Option<string>,
    months: MonthPane,
    days: DayPane,
    flights: map<nat, Flight>,
    nextId: nat)

  /** What comes back for a request: a body, or any failure (status, network, abort). */
  datatype Reply = Answered(limit: nat, revision: nat) | Failed

  datatype Event =
    | Navigate(month: string, parsedDate: Option<string>)
    | Refresh
    | RetryMonth
    | RetryDay
    | LoadMore
    | Settle(id: nat, reply: Reply)

  const MONTHS_KEPT: nat := 5

  /** The service's page size when a request names none, as the panel's never do. */
  const PAGE_SIZE: nat := 100

  // ---------- the service ----------

  /** One page of a day, as the API slices it.  A limit below one is never served. */
  function ServePage(server: Server, date: string, offset: nat, limit: nat): DayView {
    var list := server(date);
    var size := if limit == 0 then 1 else limit;
    var from := if offset < |list| then offset else |list|;
    var to := if offset + size < |list| then offset + size else |list|;
    DayView(date, list[from..to], offset + size < |list|)
  }

  // ---------- controllers ----------

  function AbortFlight(flights: map<nat, Flight>, controller: Option<nat>): map<nat, Flight> {
    if controller.Some? && controller.value in flights
    then flights[controller.value := flights[controller.value].(aborted := true)]
    else flights
  }

  /** The requests that can still change the panel. */
  function Live(flights: map<nat, Flight>): map<nat, Request> {
    map id | id in flights && !flights[id].aborted :: flights[id].request
  }

  // ---------- the month cache ----------

  function Keys(months: seq<CacheEntry>): set<string> {
    set e | e in months :: e.key
  }

  function Without(months: seq<CacheEntry>, key: string): seq<CacheEntry> {
    if months == [] then []
    else (if months[0].key == key then [] else [months[0]]) + Without(months[1..], key)
  }

  function LastEntries(months: seq<CacheEntry>, n: nat): seq<CacheEntry> {
    if |months| <= n then months else months[|months| - n..]
  }

  function CachePut(months: seq<CacheEntry>, key: string, body: MonthView): seq<CacheEntry> {
    LastEntries(Without(months, key), MONTHS_KEPT) + [CacheEntry(key, body)]
  }

  // ---------- the component's callbacks and effects ----------

  predicate InMonth(month: string, date: string) {
    month + "-" <= date
  }

  /** The `date` URL parameter counts only inside the selected month. */
  function DateParam(month: string, parsedDate: Option<string>): Option<string> {
    if parsedDate.Some? && InMonth(month, parsedDate.value) then parsedDate else None
  }

  function LoadMonthSpec(p: Panel, key: string): Panel {
    var flights := AbortFlight(p.flights, p.months.controller);
    p.(months := MonthPane(p.months.cache, p.months.requested + {key}, true, false, Some(p.nextId)),
       flights := flights[p.nextId := Flight(MonthRequest(key), false)],
       nextId := p.nextId + 1)
  }

  function LoadDaySpec(p: Panel, date: string): Panel {
    var flights := AbortFlight(p.flights, p.days.controller);
    p.(days := DayPane(None, true, false, false, false, Some(p.nextId)),
       flights := flights[p.nextId := Flight(DayRequest(date), false)],
       nextId := p.nextId + 1)
  }

  predicate CanLoadMore(p: Panel) {
    p.days.day.Some? && p.date == Some(p.days.day.value.date) && p.days.day.value.hasMore && !p.days.moreLoading
  }

  function LoadMoreSpec(p: Panel): Panel {
    if !CanLoadMore(p) then p
    else
      var request := PageRequest(p.days.day.value.date, |p.days.day.value.executions|);
      var flights := AbortFlight(p.flights, p.days.controller);
      p.(days := p.days.(moreLoading := true, moreError := false, controller := Some(p.nextId)),
         flights := flights[p.nextId := Flight(request, false)],
         nextId := p.nextId + 1)
  }

  function LeaveMonth(p: Panel, month: string): Panel {
    p.(monthKey := month,
       months := p.months.(requested := p.months.requested - {p.monthKey}),
       flights := AbortFlight(p.flights, p.months.controller))
  }

  function EnterMonth(p: Panel): Panel {
    var q := p.(months := p.months.(loading := false));
    if q.monthKey in q.months.requested then q else LoadMonthSpec(q, q.monthKey)
  }

  function LeaveDay(p: Panel, date: Option<string>): Panel {
    p.(date := date, flights := if p.date.Some? then AbortFlight(p.flights, p.days.controller) else p.flights)
  }

  function EnterDay(p: Panel): Panel {
    if p.date.None?
    then p.(days := p.days.(day := None, error := false, loading := false),
            flights := AbortFlight(p.flights, p.days.controller))
    else LoadDaySpec(p, p.date.value)
  }

  /** The clean-ups of the effects whose inputs change run before any effect does. */
  function Leave(p: Panel, month: string, date: Option<string>): Panel {
    var left := if month == p.monthKey then p else LeaveMonth(p, month);
    if date == p.date then left else LeaveDay(left, date)
  }

  function NavigateSpec(p: Panel, month: string, parsedDate: Option<string>): Panel {
    var date := DateParam(month, parsedDate);
    var left := Leave(p, month, date);
    var entered := if month == p.monthKey then left else EnterMonth(left);
    if date == p.date then entered else EnterDay(entered)
  }

  function RetryDaySpec(p: Panel): Panel {
    if p.date.Some? then LoadDaySpec(p, p.date.value) else p
  }

  function SettleMonthPane(m: MonthPane, key: string, reply: Reply): MonthPane {
    match reply
    case Answered(_, revision) => m.(cache := CachePut(m.cache, key, MonthView(key, revision)), loading := false)
    case Failed => m.(requested := m.requested - {key}, error := true, loading := false)
  }

  function SettleDayPane(d: DayPane, server: Server, date: string, reply: Reply): DayPane {
    match reply
    case Answered(limit, _) => d.(day := Some(ServePage(server, date, 0, limit)), loading := false)
    case Failed => d.(error := true, loading := false)
  }

  function SettlePagePane(d: DayPane, server: Server, date: string, offset: nat, reply: Reply): DayPane {
    match reply
    case Answered(limit, _) =>
      var body := ServePage(server, date, offset, limit);
      if d.day.Some? && d.day.value.date == body.date
      then d.(day := Some(body.(executions := d.day.value.executions + body.executions)), moreLoading := false)
      else d.(moreLoading := false)
    case Failed => d.(moreError := true, moreLoading := false)
  }

  function Deliver(p: Panel, server: Server, request: Request, reply: Reply): Panel {
    match request
    case MonthRequest(month) => p.(months := SettleMonthPane(p.months, month, reply))
    case DayRequest(date) => p.(days := SettleDayPane(p.days, server, date, reply))
    case PageRequest(date, offset) => p.(days := SettlePagePane(p.days, server, date, offset, reply))
  }

  /** A fetch resolves or rejects.  An aborted one leaves the panel alone. */
  function SettleSpec(p: Panel, server: Server, id: nat, reply: Reply): Panel {
    if id !in p.flights then p
    else
      var landed := p.(flights := p.flights - {id});
      if p.flights[id].aborted then landed else Deliver(landed, server, p.flights[id].request, reply)
  }

  function Step(p: Panel, server: Server, e: Event): Panel {
    match e
    case Navigate(month, parsedDate) => NavigateSpec(p, month, parsedDate)
    case Refresh => RetryDaySpec(LoadMonthSpec(p, p.monthKey))
    case RetryMonth => LoadMonthSpec(p, p.monthKey)
    case RetryDay => RetryDaySpec(p)
    case LoadMore => LoadMoreSpec(p)
    case Settle(id, reply) => SettleSpec(p, server, id, reply)
  }

  function Run(p: Panel, server: Server, events: seq<Event>): Panel
    decreases |events|
  {
    if events == [] then p else Run(Step(p, server, events[0]), server, events[1..])
  }

  /** What the page hands over on first render: the server-rendered month, or its failure. */
  datatype Props = Props(initialMonthKey: string, initialMonth: Option<nat>, initialError: bool)

  function HandedOver(props: Props): seq<CacheEntry> {
    if props.initialMonth.Some?
    then [CacheEntry(props.initialMonthKey, MonthView(props.initialMonthKey, props.initialMonth.value))] else []
  }

  function Blank(props: Props, month: string, date: Option<string>): Panel {
    var requested := if props.initialMonth.Some? || props.initialError then {props.initialMonthKey} else {};
    Panel(month, date, MonthPane(HandedOver(props), requested, false, props.initialError, None),
          DayPane(None, false, false, false, false, None), map[], 0)
  }

  function Mount(props: Props, month: string, parsedDate: Option<string>): Panel {
    EnterDay(EnterMonth(Blank(props, month, DateParam(month, parsedDate))))
  }

  // ---------- the invariant ----------

  ghost predicate ControllersTrackRequests(p: Panel) {
    && (forall id <- p.flights :: id < p.nextId)
    && (p.months.controller.Some? ==> p.months.controller.value < p.nextId)
    && (p.days.controller.Some? ==> p.days.controller.value < p.nextId)
    && (forall id <- p.flights ::
          Some(id) != if p.flights[id].request.MonthRequest? then p.days.controller else p.months.controller)
    && (forall id <- p.flights | !p.flights[id].aborted ::
          Some(id) == if p.flights[id].request.MonthRequest? then p.months.controller else p.days.controller)
  }

  /** The request a channel is waiting for, if it is waiting. */
  function Waiting(flights: map<nat, Flight>, controller: Option<nat>): Option<Request> {
    if controller.Some? && controller.value in flights && !flights[controller.value].aborted
    then Some(flights[controller.value].request) else None
  }

  function MonthWaits(p: Panel): Option<Request> {
    Waiting(p.flights, p.months.controller)
  }

  function DayWaits(p: Panel): Option<Request> {
    Waiting(p.flights, p.days.controller)
  }

  ghost predicate MonthChannel(m: MonthPane, monthKey: string, waiting: Option<Request>) {
    && (m.loading <==> waiting.Some?)
    && (waiting.Some? ==> waiting.value == MonthRequest(monthKey) && monthKey in m.requested)
    && CacheSound(m.cache)
  }

  ghost predicate DayChannel(d: DayPane, date: Option<string>, waiting: Option<Request>, server: Server) {
    && (d.loading <==> waiting.Some? && waiting.value.DayRequest?)
    && (date.Some? ==> (d.moreLoading <==> waiting.Some? && waiting.value.PageRequest?))
    && (date.None? ==> waiting.None? && d.day.None?)
    && (waiting.Some? && waiting.value.DayRequest? ==> date == Some(waiting.value.date) && d.day.None?)
    && (waiting.Some? && waiting.value.PageRequest? ==>
          && date == Some(waiting.value.date)
          && d.day.Some? && d.day.value.hasMore
          && |d.day.value.executions| == waiting.value.offset)
    && (d.day.Some? ==>
          && date == Some(d.day.value.date)
          && d.day.value.executions <= server(d.day.value.date)
          && (d.day.value.hasMore <==> |d.day.value.executions| < |server(d.day.value.date)|))
    && (date.Some? && d.day.None? ==> d.loading || d.error)
  }

  ghost predicate DistinctKeys(cache: seq<CacheEntry>) {
    forall i, j | 0 <= i < j < |cache| :: cache[i].key != cache[j].key
  }

  ghost predicate CacheSound(cache: seq<CacheEntry>) {
    |cache| <= MONTHS_KEPT + 1 && DistinctKeys(cache) && forall e <- cache :: e.body.month == e.key
  }

  ghost predicate MonthOk(p: Panel) {
    MonthChannel(p.months, p.monthKey, MonthWaits(p))
  }

  ghost predicate DayOk(p: Panel, server: Server) {
    DayChannel(p.days, p.date, DayWaits(p), server)
  }

  ghost predicate Inv(p: Panel, server: Server) {
    ControllersTrackRequests(p) && MonthOk(p) && DayOk(p, server)
  }

  // ---------- every step keeps the invariant ----------

  lemma {:induction false} WithoutMembers(cache: seq<CacheEntry>, key: string)
    ensures |Without(cache, key)| <= |cache|
    ensures forall e :: e in Without(cache, key) <==> e in cache && e.key != key
  {
    if cache != [] {
      WithoutMembers(cache[1..], key);
      assert cache == [cache[0]] + cache[1..];
    }
  }

  lemma {:induction false} WithoutDistinct(cache: seq<CacheEntry>, key: string)
    requires DistinctKeys(cache)
    ensures DistinctKeys(Without(cache, key))
  {
    if cache != [] {
      WithoutDistinct(cache[1..], key);
      WithoutMembers(cache[1..], key);
      var rest := Without(cache[1..], key);
      forall i | 0 <= i < |rest| ensures rest[i].key != cache[0].key {
        assert rest[i] in cache[1..];
      }
    }
  }

  lemma LastEntriesSound(cache: seq<CacheEntry>, n: nat)
    requires DistinctKeys(cache)
    ensures |LastEntries(cache, n)| <= n && DistinctKeys(LastEntries(cache, n))
    ensures forall e <- LastEntries(cache, n) :: e in cache
  {
  }

  lemma CachePutSound(cache: seq<CacheEntry>, key: string, body: MonthView)
    requires CacheSound(cache) && body.month == key
    ensures CacheSound(CachePut(cache, key, body))
    ensures key in Keys(CachePut(cache, key, body))
  {
    WithoutMembers(cache, key);
    WithoutDistinct(cache, key);
    LastEntriesSound(Without(cache, key), MONTHS_KEPT);
    var kept := LastEntries(Without(cache, key), MONTHS_KEPT);
    assert forall i | 0 <= i < |kept| :: kept[i] in kept;
    assert CacheEntry(key, body) in kept + [CacheEntry(key, body)];
  }

  /** Starting a month request supersedes the last one and leaves the day channel alone. */
  lemma LoadMonthKeeps(p: Panel)
    requires ControllersTrackRequests(p) && CacheSound(p.months.cache)
    ensures var q := LoadMonthSpec(p, p.monthKey);
            ControllersTrackRequests(q) && MonthOk(q) && DayWaits(q) == DayWaits(p)
  {
  }

  lemma LoadDayKeeps(p: Panel, server: Server)
    requires ControllersTrackRequests(p) && p.date.Some?
    ensures var q := LoadDaySpec(p, p.date.value);
            ControllersTrackRequests(q) && DayOk(q, server) && MonthWaits(q) == MonthWaits(p)
  {
  }

  lemma LoadMoreKeeps(p: Panel, server: Server)
    requires Inv(p, server)
    ensures Inv(LoadMoreSpec(p), server)
  {
    if CanLoadMore(p) {
      var q := LoadMoreSpec(p);
      assert ControllersTrackRequests(q);
      assert MonthWaits(q) == MonthWaits(p);
      assert DayWaits(q) == Some(PageRequest(p.days.day.value.date, |p.days.day.value.executions|));
    }
  }

  lemma EnterMonthKeeps(p: Panel)
    requires ControllersTrackRequests(p) && MonthWaits(p).None? && CacheSound(p.months.cache)
    ensures var q := EnterMonth(p);
            ControllersTrackRequests(q) && MonthOk(q) && DayWaits(q) == DayWaits(p)
  {
    LoadMonthKeeps(p.(months := p.months.(loading := false)));
  }

  lemma EnterDayKeeps(p: Panel, server: Server)
    requires ControllersTrackRequests(p)
    ensures var q := EnterDay(p);
            ControllersTrackRequests(q) && DayOk(q, server) && MonthWaits(q) == MonthWaits(p)
  {
    if p.date.Some? {
      LoadDayKeeps(p, server);
    }
  }

  lemma LeaveMonthKeeps(p: Panel, month: string)
    requires ControllersTrackRequests(p)
    ensures var q := LeaveMonth(p, month);
            ControllersTrackRequests(q) && MonthWaits(q).None? && DayWaits(q) == DayWaits(p)
  {
  }

  lemma LeaveDayKeeps(p: Panel, date: Option<string>)
    requires ControllersTrackRequests(p)
    ensures var q := LeaveDay(p, date);
            ControllersTrackRequests(q) && MonthWaits(q) == MonthWaits(p)
  {
  }

  lemma NavigateKeeps(p: Panel, server: Server, month: string, parsedDate: Option<string>)
    requires Inv(p, server)
    ensures Inv(NavigateSpec(p, month, parsedDate), server)
  {
    var date := DateParam(month, parsedDate);
    var left := if month == p.monthKey then p else LeaveMonth(p, month);
    LeaveMonthKeeps(p, month);
    LeaveDayKeeps(left, date);
    var left' := Leave(p, month, date);
    var entered := if month == p.monthKey then left' else EnterMonth(left');
    if month != p.monthKey {
      EnterMonthKeeps(left');
    }
    assert ControllersTrackRequests(entered) && MonthOk(entered);
    EnterDayKeeps(entered, server);
  }

  lemma PrefixExtends(list: seq<Execution>, loaded: seq<Execution>, to: nat)
    requires loaded <= list && |loaded| <= to <= |list|
    ensures loaded + list[|loaded|..to] == list[..to] <= list
  {
    assert loaded == list[..|loaded|];
  }

  /** Delivering a response frees its slot and nothing else. */
  lemma LandingFrees(p: Panel, id: nat)
    requires ControllersTrackRequests(p) && id in p.flights
    ensures var q := p.(flights := p.flights - {id});
            && ControllersTrackRequests(q)
            && MonthWaits(q) == (if p.months.controller == Some(id) then None else MonthWaits(p))
            && DayWaits(q) == (if p.days.controller == Some(id) then None else DayWaits(p))
  {
  }

  lemma SettlePageKeeps(d: DayPane, date: Option<string>, server: Server, request: Request, reply: Reply)
    requires request.PageRequest? && DayChannel(d, date, Some(request), server)
    ensures DayChannel(SettlePagePane(d, server, request.date, request.offset, reply), date, None, server)
  {
    if reply.Answered? {
      var list := server(request.date);
      var size := if reply.limit == 0 then 1 else reply.limit;
      var to := if request.offset + size < |list| then request.offset + size else |list|;
      PrefixExtends(list, d.day.value.executions, to);
    }
  }

  lemma SettleKeeps(p: Panel, server: Server, id: nat, reply: Reply)
    requires Inv(p, server)
    ensures Inv(SettleSpec(p, server, id, reply), server)
  {
    if id in p.flights {
      LandingFrees(p, id);
      if !p.flights[id].aborted {
        var request := p.flights[id].request;
        match request
        case MonthRequest(month) =>
          assert MonthWaits(p) == Some(request);
          if reply.Answered? {
            CachePutSound(p.months.cache, month, MonthView(month, reply.revision));
          }
        case DayRequest(date) => assert DayWaits(p) == Some(request);
        case PageRequest(date, offset) =>
          assert DayWaits(p) == Some(request);
          SettlePageKeeps(p.days, p.date, server, request, reply);
      }
    }
  }

  lemma StepKeepsInvariant(p: Panel, server: Server, e: Event)
    requires Inv(p, server)
    ensures Inv(Step(p, server, e), server)
  {
    match e
    case Navigate(month, parsedDate) => NavigateKeeps(p, server, month, parsedDate);
    case Refresh =>
      LoadMonthKeeps(p);
      if p.date.Some? {
        LoadDayKeeps(LoadMonthSpec(p, p.monthKey), server);
      }
    case RetryMonth => LoadMonthKeeps(p);
    case RetryDay =>
      if p.date.Some? {
        LoadDayKeeps(p, server);
      }
    case LoadMore => LoadMoreKeeps(p, server);
    case Settle(id, reply) => SettleKeeps(p, server, id, reply);
  }

  lemma MountEstablishes(props: Props, server: Server, month: string, parsedDate: Option<string>)
    ensures Inv(Mount(props, month, parsedDate), server)
  {
    var blank := Blank(props, month, DateParam(month, parsedDate));
    EnterMonthKeeps(blank);
    EnterDayKeeps(EnterMonth(blank), server);
  }

  lemma {:induction false} RunKeepsInvariant(p: Panel, server: Server, events: seq<Event>)
    requires Inv(p, server)
    ensures Inv(Run(p, server, events), server)
    decreases |events|
  {
    if events != [] {
      StepKeepsInvariant(p, server, events[0]);
      RunKeepsInvariant(Step(p, server, events[0]), server, events[1..]);
    }
  }

  // ---------- what a reader of the panel may rely on, over every run ----------

  /** Everything that can happen from first render on. */
  function Session(props: Props, server: Server, month: string, parsedDate: Option<string>, events: seq<Event>): Panel {
    Run(Mount(props, month, parsedDate), server, events)
  }

  lemma SessionInvariant(props: Props, server: Server, month: string, parsedDate: Option<string>, events: seq<Event>)
    ensures Inv(Session(props, server, month, parsedDate, events), server)
  {
    MountEstablishes(props, server, month, parsedDate);
    RunKeepsInvariant(Mount(props, month, parsedDate), server, events);
  }

  /** The rows on screen are the selected day's rows, in order, from the first, and all of
      them once nothing more is offered. */
  lemma LoadedRowsArePrefix(props: Props, server: Server, month: string, parsedDate: Option<string>, events: seq<Event>)
    ensures var p := Session(props, server, month, parsedDate, events);
            p.days.day.Some? ==>
              var day := p.days.day.value;
              && p.date == Some(day.date)
              && day.executions <= server(day.date)
              && (!day.hasMore <==> day.executions == server(day.date))
  {
    SessionInvariant(props, server, month, parsedDate, events);
  }

  ghost predicate LiveRequest(p: Panel, id: nat) {
    id in p.flights && !p.flights[id].aborted
  }

  ghost predicate DayLoadLive(p: Panel) {
    exists id :: LiveRequest(p, id) && p.flights[id].request.DayRequest? && p.date == Some(p.flights[id].request.date)
  }

  ghost predicate PageLoadLive(p: Panel) {
    exists id :: LiveRequest(p, id) && p.flights[id].request.PageRequest? && p.date == Some(p.flights[id].request.date)
  }

  lemma SpinnersMatch(p: Panel, server: Server)
    requires Inv(p, server)
    ensures p.months.loading <==> exists id :: LiveRequest(p, id) && p.flights[id].request == MonthRequest(p.monthKey)
    ensures p.days.loading <==> DayLoadLive(p)
    ensures p.date.Some? ==> (p.days.moreLoading <==> PageLoadLive(p))
  {
    if p.months.loading {
      assert LiveRequest(p, p.months.controller.value);
    }
    if DayWaits(p).Some? {
      assert LiveRequest(p, p.days.controller.value);
    }
  }

  /** At most one request per channel is live, it is the current controller's, and each
      spinner is on exactly while its request is. */
  lemma SpinnersMatchRequests(
    props: Props, server: Server, month: string, parsedDate: Option<string>, events: seq<Event>)
    ensures var p := Session(props, server, month, parsedDate, events);
            && (forall i, j | LiveRequest(p, i) && LiveRequest(p, j)
                  && p.flights[i].request.MonthRequest? == p.flights[j].request.MonthRequest? :: i == j)
            && (forall i | LiveRequest(p, i) ::
                  Some(i) == if p.flights[i].request.MonthRequest? then p.months.controller else p.days.controller)
            && (p.months.loading <==>
                  exists id :: LiveRequest(p, id) && p.flights[id].request == MonthRequest(p.monthKey))
            && (p.days.loading <==> DayLoadLive(p))
            && (p.date.Some? ==> (p.days.moreLoading <==> PageLoadLive(p)))
  {
    SessionInvariant(props, server, month, parsedDate, events);
    SpinnersMatch(Session(props, server, month, parsedDate, events), server);
  }

  /** The inspector's skeleton condition, as the component computes it from three fields. */
  predicate InspectorLoading(p: Panel) {
    && p.date.Some?
    && (p.days.loading || (!p.days.error && (p.days.day.None? || p.date != Some(p.days.day.value.date))))
  }

  /** An open inspector shows a skeleton, an error or the day, and the skeleton only while
      the day is really on its way. */
  lemma InspectorNeverStuck(
    props: Props, server: Server, month: string, parsedDate: Option<string>, events: seq<Event>)
    ensures var p := Session(props, server, month, parsedDate, events);
            && (InspectorLoading(p) <==> DayLoadLive(p))
            && (p.date.Some? ==> DayLoadLive(p) || p.days.error || p.days.day.Some?)
  {
    SessionInvariant(props, server, month, parsedDate, events);
    SpinnersMatch(Session(props, server, month, parsedDate, events), server);
  }

  lemma NavigateFields(p: Panel, month: string, parsedDate: Option<string>)
    ensures var q := NavigateSpec(p, month, parsedDate);
            && q.monthKey == month && q.months.cache == p.months.cache
            && q.date == DateParam(month, parsedDate)
            && q.days.moreLoading == (p.days.moreLoading && (q.date == p.date || q.date.None?))
  {
  }

  /** Closing the inspector aborts a page load without switching its spinner off: the flag
      outlives the request exactly when a page was loading at that moment. */
  lemma PageSpinnerAfterDeselect(p: Panel, server: Server, month: string, parsedDate: Option<string>)
    requires Inv(p, server) && p.date.Some? && DateParam(month, parsedDate).None?
    ensures var q := Step(p, server, Navigate(month, parsedDate));
            q.date.None? && !PageLoadLive(q) && (q.days.moreLoading <==> PageLoadLive(p))
  {
    NavigateFields(p, month, parsedDate);
    SpinnersMatch(p, server);
  }

  /** A left-over page spinner lasts while no date is selected and ends with the next selection. */
  lemma PageSpinnerUntilSelect(p: Panel, server: Server, e: Event)
    requires Inv(p, server) && p.date.None?
    ensures var q := Step(p, server, e);
            q.days.moreLoading == (p.days.moreLoading && q.date.None?)
  {
    match e
    case Navigate(month, parsedDate) => NavigateFields(p, month, parsedDate);
    case Settle(id, _) => assert LiveRequest(p, id) ==> p.flights[id].request.MonthRequest?;
    case _ =>
  }

  lemma RunSnoc(p: Panel, server: Server, events: seq<Event>, e: Event)
    ensures Run(p, server, events + [e]) == Step(Run(p, server, events), server, e)
  {
    RunAppend(p, server, events, [e]);
    var q := Run(p, server, events);
    assert Run(q, server, [e]) == Run(Step(q, server, e), server, []);
  }

  /** The state after the first `i` events. */
  function StateAt(p: Panel, server: Server, events: seq<Event>, i: nat): Panel
    requires i <= |events|
  {
    Run(p, server, events[..i])
  }

  /** At moment `i` a page was loading, and from then on no date has been selected. */
  ghost predicate DeselectedMidPage(p: Panel, server: Server, events: seq<Event>, i: nat) {
    && i < |events|
    && PageLoadLive(StateAt(p, server, events, i))
    && forall j: nat | i < j <= |events| :: StateAt(p, server, events, j).date.None?
  }

  lemma EarlierDeselect(p: Panel, server: Server, events: seq<Event>, e: Event, i: nat)
    requires i < |events| && Run(p, server, events + [e]).date.None?
    ensures DeselectedMidPage(p, server, events + [e], i) <==> DeselectedMidPage(p, server, events, i)
  {
    var more := events + [e];
    assert more[..i] == events[..i];
    assert more[..|more|] == more;
    forall j: nat | i < j <= |events| ensures StateAt(p, server, more, j) == StateAt(p, server, events, j) {
      assert more[..j] == events[..j];
    }
  }

  lemma LatestDeselect(p: Panel, server: Server, events: seq<Event>, e: Event)
    ensures DeselectedMidPage(p, server, events + [e], |events|)
            <==> PageLoadLive(Run(p, server, events)) && Run(p, server, events + [e]).date.None?
  {
    var more := events + [e];
    assert more[..|events|] == events && more[..|more|] == more;
    assert StateAt(p, server, more, |more|) == Run(p, server, more);
  }

  lemma StillDeselected(p: Panel, server: Server, events: seq<Event>, i: nat)
    requires DeselectedMidPage(p, server, events, i)
    ensures Run(p, server, events).date.None?
  {
    assert events[..|events|] == events;
    assert StateAt(p, server, events, |events|).date.None?;
  }

  /** One event more: the flag is on for a live page or an unfinished deselection. */
  lemma SpinnerExplainedStep(p: Panel, server: Server, events: seq<Event>, e: Event)
    requires Inv(Run(p, server, events), server)
    requires var s := Run(p, server, events);
             s.days.moreLoading <==> PageLoadLive(s) || exists i :: DeselectedMidPage(p, server, events, i)
    ensures var q := Run(p, server, events + [e]);
            q.days.moreLoading <==> PageLoadLive(q) || exists i :: DeselectedMidPage(p, server, events + [e], i)
  {
    var s, q := Run(p, server, events), Run(p, server, events + [e]);
    RunSnoc(p, server, events, e);
    StepKeepsInvariant(s, server, e);
    SpinnersMatch(q, server);
    LatestDeselect(p, server, events, e);
    if q.date.Some? {
      forall i | DeselectedMidPage(p, server, events + [e], i) ensures false {
        StillDeselected(p, server, events + [e], i);
      }
    } else {
      forall i: nat | i < |events|
        ensures DeselectedMidPage(p, server, events + [e], i) <==> DeselectedMidPage(p, server, events, i)
      {
        EarlierDeselect(p, server, events, e, i);
      }
      if s.date.Some? {
        forall i | DeselectedMidPage(p, server, events, i) ensures false {
          StillDeselected(p, server, events, i);
        }
        DeselectIsNavigation(s, server, e);
        PageSpinnerAfterDeselect(s, server, e.month, e.parsedDate);
      } else {
        PageSpinnerUntilSelect(s, server, e);
      }
    }
  }

  lemma DeselectIsNavigation(p: Panel, server: Server, e: Event)
    requires p.date.Some? && Step(p, server, e).date.None?
    ensures e.Navigate? && DateParam(e.month, e.parsedDate).None?
  {
    if e.Navigate? {
      NavigateFields(p, e.month, e.parsedDate);
    }
  }

  lemma {:induction false} SpinnerExplainedFrom(p: Panel, server: Server, events: seq<Event>)
    requires Inv(p, server) && (p.date.None? ==> !p.days.moreLoading)
    ensures var q := Run(p, server, events);
            q.days.moreLoading <==> PageLoadLive(q) || exists i :: DeselectedMidPage(p, server, events, i)
    decreases |events|
  {
    if events == [] {
      SpinnersMatch(p, server);
    } else {
      var n := |events| - 1;
      SpinnerExplainedFrom(p, server, events[..n]);
      RunKeepsInvariant(p, server, events[..n]);
      SpinnerExplainedStep(p, server, events[..n], events[n]);
      assert events == events[..n] + [events[n]];
    }
  }

  /** Over every run the page spinner's flag is on exactly while a page is loading, or
      since a page was loading when the selection was cleared. */
  lemma PageSpinnerExplained(props: Props, server: Server, month: string, parsedDate: Option<string>, events: seq<Event>)
    ensures var q := Session(props, server, month, parsedDate, events);
            q.days.moreLoading
            <==> PageLoadLive(q) || exists i :: DeselectedMidPage(Mount(props, month, parsedDate), server, events, i)
  {
    MountEstablishes(props, server, month, parsedDate);
    SpinnerExplainedFrom(Mount(props, month, parsedDate), server, events);
  }

  /** The flag is on and no page is on its way. */
  ghost predicate LeftOverSpinner(p: Panel) {
    p.days.moreLoading && !PageLoadLive(p)
  }

  /** Every answer was served with the same page size: the panel never asks for another. */
  ghost predicate Paged(events: seq<Event>, size: nat) {
    forall e <- events | e.Settle? && e.reply.Answered? :: e.reply.limit == size
  }

  /** From first render: the first page arrives, the next is asked for, the inspector is closed. */
  lemma LeftOverRun(props: Props, server: Server, month: string, date: string, size: nat)
    requires size >= 1 && InMonth(month, date) && |server(date)| > size
    ensures exists events :: Paged(events, size) && LeftOverSpinner(Session(props, server, month, Some(date), events))
  {
    var start := Mount(props, month, Some(date));
    MountEstablishes(props, server, month, Some(date));
    assert DayWaits(start) == Some(DayRequest(date));
    var arrive := Settle(start.days.controller.value, Answered(size, 0));
    var shown := Step(start, server, arrive);
    StepKeepsInvariant(start, server, arrive);
    assert shown.days.day == Some(ServePage(server, date, 0, size)) && CanLoadMore(shown);
    var asked := Step(shown, server, LoadMore);
    StepKeepsInvariant(shown, server, LoadMore);
    SpinnersMatch(asked, server);
    assert asked.days.moreLoading && PageLoadLive(asked);
    PageSpinnerAfterDeselect(asked, server, month, None);
    var closed := Step(asked, server, Navigate(month, None));
    assert LeftOverSpinner(closed);
    RunSnoc(start, server, [], arrive);
    RunSnoc(start, server, [arrive], LoadMore);
    RunSnoc(start, server, [arrive] + [LoadMore], Navigate(month, None));
    assert [] + [arrive] == [arrive];
    var events := [arrive] + [LoadMore] + [Navigate(month, None)];
    assert Paged(events, size) && Session(props, server, month, Some(date), events) == closed;
  }

  /** More is only offered below a full page on screen, and only a date of the month is selected. */
  ghost predicate Anchored(p: Panel, size: nat) {
    && (p.days.day.Some? && p.days.day.value.hasMore ==> |p.days.day.value.executions| >= size)
    && (p.date.Some? ==> InMonth(p.monthKey, p.date.value))
  }

  lemma NavigateDay(p: Panel, month: string, parsedDate: Option<string>)
    ensures var q := NavigateSpec(p, month, parsedDate); q.days.day == p.days.day || q.days.day.None?
  {
  }

  lemma StepKeepsAnchored(p: Panel, server: Server, e: Event, size: nat)
    requires Inv(p, server) && Anchored(p, size) && size >= 1
    requires e.Settle? && e.reply.Answered? ==> e.reply.limit == size
    ensures Anchored(Step(p, server, e), size)
  {
    match e
    case Navigate(month, parsedDate) =>
      NavigateFields(p, month, parsedDate);
      NavigateDay(p, month, parsedDate);
    case Settle(id, reply) =>
      if id in p.flights && !p.flights[id].aborted && p.flights[id].request.PageRequest? {
        assert DayWaits(p) == Some(p.flights[id].request);
      }
    case _ =>
  }

  lemma {:induction false} RunKeepsAnchored(p: Panel, server: Server, events: seq<Event>, size: nat)
    requires Inv(p, server) && Anchored(p, size) && size >= 1 && Paged(events, size)
    ensures Anchored(Run(p, server, events), size) && Inv(Run(p, server, events), server)
    decreases |events|
  {
    if events != [] {
      assert events[0] in events;
      assert forall e :: e in events[1..] ==> e in events;
      StepKeepsAnchored(p, server, events[0], size);
      StepKeepsInvariant(p, server, events[0]);
      RunKeepsAnchored(Step(p, server, events[0]), server, events[1..], size);
    }
  }

  lemma PageNeedsMoreThanOne(p: Panel, server: Server, size: nat)
    requires Inv(p, server) && Anchored(p, size) && PageLoadLive(p)
    ensures p.date.Some? && InMonth(p.monthKey, p.date.value) && |server(p.date.value)| > size
  {
    var id :| LiveRequest(p, id) && p.flights[id].request.PageRequest? && p.date == Some(p.flights[id].request.date);
    assert DayWaits(p) == Some(p.flights[id].request);
  }

  /** With pages of `size` rows the flag can be left on exactly when a date has more
      executions than one page. */
  lemma LeftOverReachable(server: Server, size: nat)
    requires size >= 1
    ensures (exists props, month, parsedDate, events ::
               Paged(events, size) && LeftOverSpinner(Session(props, server, month, parsedDate, events)))
            <==> exists month, date :: InMonth(month, date) && |server(date)| > size
  {
    if props, month, parsedDate, events :|
      Paged(events, size) && LeftOverSpinner(Session(props, server, month, parsedDate, events)) {
      PageSpinnerExplained(props, server, month, parsedDate, events);
      var start := Mount(props, month, parsedDate);
      var i :| DeselectedMidPage(start, server, events, i);
      MountEstablishes(props, server, month, parsedDate);
      assert forall e :: e in events[..i] ==> e in events;
      RunKeepsAnchored(start, server, events[..i], size);
      PageNeedsMoreThanOne(StateAt(start, server, events, i), server, size);
    }
    if month, date :| InMonth(month, date) && |server(date)| > size {
      LeftOverRun(Props(month, None, false), server, month, date, size);
    }
  }

  /** At the service's own page size: no date above a hundred executions, no left-over flag. */
  lemma ShortDaysNeverLeaveSpinner(
    props: Props, server: Server, month: string, parsedDate: Option<string>, events: seq<Event>)
    requires Paged(events, 100) && forall date :: |server(date)| <= 100
    ensures var q := Session(props, server, month, parsedDate, events);
            q.days.moreLoading <==> PageLoadLive(q)
  {
    var q := Session(props, server, month, parsedDate, events);
    SessionInvariant(props, server, month, parsedDate, events);
    PageSpinnerExplained(props, server, month, parsedDate, events);
    if LeftOverSpinner(q) {
      LeftOverReachable(server, PAGE_SIZE);
    }
  }

  // ---------- the month cache ----------

  lemma MonthCacheBounded(props: Props, server: Server, month: string, parsedDate: Option<string>, events: seq<Event>)
    ensures var cache := Session(props, server, month, parsedDate, events).months.cache;
            && |cache| <= 6
            && (forall i, j | 0 <= i < j < |cache| :: cache[i].key != cache[j].key)
            && (forall e <- cache :: e.body.month == e.key)
  {
    SessionInvariant(props, server, month, parsedDate, events);
  }

  /** One step changes the cache only by filing the selected month's own answer. */
  lemma StepCache(p: Panel, server: Server, e: Event)
    requires Inv(p, server)
    ensures var q := Step(p, server, e);
            && q.monthKey == (if e.Navigate? then e.month else p.monthKey)
            && (q.months.cache == p.months.cache
                || exists r :: q.months.cache == CachePut(p.months.cache, p.monthKey, MonthView(p.monthKey, r)))
  {
    match e
    case Navigate(month, parsedDate) => NavigateFields(p, month, parsedDate);
    case Settle(id, reply) =>
      if id in p.flights && !p.flights[id].aborted && p.flights[id].request.MonthRequest? && reply.Answered? {
        assert MonthWaits(p) == Some(MonthRequest(p.monthKey));
        assert Step(p, server, e).months.cache
            == CachePut(p.months.cache, p.monthKey, MonthView(p.monthKey, reply.revision));
      }
    case _ =>
  }

  lemma {:induction false} OnScreenMonthNeverEvicted(p: Panel, server: Server, events: seq<Event>)
    requires Inv(p, server) && p.monthKey in Keys(p.months.cache)
    requires forall e <- events | e.Navigate? :: e.month == p.monthKey
    ensures var q := Run(p, server, events); q.monthKey == p.monthKey && q.monthKey in Keys(q.months.cache)
    decreases |events|
  {
    if events != [] {
      var q := Step(p, server, events[0]);
      StepKeepsInvariant(p, server, events[0]);
      StepCache(p, server, events[0]);
      if q.months.cache != p.months.cache {
        var r :| q.months.cache == CachePut(p.months.cache, p.monthKey, MonthView(p.monthKey, r));
        CachePutSound(p.months.cache, p.monthKey, MonthView(p.monthKey, r));
      }
      OnScreenMonthNeverEvicted(q, server, events[1..]);
    }
  }

  lemma {:induction false} WithoutConcat(a: seq<CacheEntry>, b: seq<CacheEntry>, key: string)
    ensures Without(a + b, key) == Without(a, key) + Without(b, key)
  {
    if a == [] {
      assert a + b == b;
    } else {
      assert (a + b)[1..] == a[1..] + b;
      WithoutConcat(a[1..], b, key);
    }
  }

  /** Each month's last filing, in filing order. */
  function Latest(filed: seq<CacheEntry>): seq<CacheEntry> {
    if filed == [] then []
    else (if filed[0].key in Keys(filed[1..]) then [] else [filed[0]]) + Latest(filed[1..])
  }

  lemma {:induction false} LatestAnother(filed: seq<CacheEntry>, e: CacheEntry)
    ensures Latest(filed + [e]) == Without(Latest(filed), e.key) + [e]
  {
    if filed == [] {
      assert filed + [e] == [e] && [e][1..] == [];
    } else {
      var rest := filed[1..];
      assert (filed + [e])[1..] == rest + [e];
      LatestAnother(rest, e);
      KeysAnother(rest, e);
      var head := if filed[0].key in Keys(rest) then [] else [filed[0]];
      WithoutConcat(head, Latest(rest), e.key);
      assert head != [] ==> Without(head, e.key) == if filed[0].key == e.key then [] else head;
    }
  }

  lemma KeysAnother(filed: seq<CacheEntry>, e: CacheEntry)
    ensures Keys(filed + [e]) == Keys(filed) + {e.key}
  {
    assert forall f :: f in filed + [e] <==> f in filed || f == e;
  }

  lemma {:induction false} LatestDistinct(filed: seq<CacheEntry>)
    ensures DistinctKeys(Latest(filed)) && forall e <- Latest(filed) :: e in filed
  {
    if filed != [] {
      LatestDistinct(filed[1..]);
      assert filed == [filed[0]] + filed[1..];
      forall i | 0 <= i < |Latest(filed[1..])| ensures Latest(filed[1..])[i].key in Keys(filed[1..]) {
        assert Latest(filed[1..])[i] in filed[1..];
      }
    }
  }

  lemma {:induction false} WithoutLosesOne(cache: seq<CacheEntry>, key: string)
    requires DistinctKeys(cache)
    ensures |Without(cache, key)| >= |cache| - 1
  {
    if cache != [] {
      if cache[0].key == key {
        forall e | e in cache[1..] ensures e.key != key {
          var i :| 0 <= i < |cache[1..]| && cache[1..][i] == e;
          assert cache[i + 1] == e;
        }
        WithoutNothing(cache[1..], key);
      } else {
        WithoutLosesOne(cache[1..], key);
      }
    }
  }

  /** Filing into the last six of a list is keeping the last six of the list with the filing. */
  lemma PutKeepsLast(all: seq<CacheEntry>, key: string, body: MonthView)
    requires DistinctKeys(all)
    ensures CachePut(LastEntries(all, MONTHS_KEPT + 1), key, body)
            == LastEntries(Without(all, key) + [CacheEntry(key, body)], MONTHS_KEPT + 1)
  {
    var last := LastEntries(all, MONTHS_KEPT + 1);
    var older := all[..|all| - |last|];
    assert all == older + last;
    WithoutConcat(older, last, key);
    if |all| > MONTHS_KEPT {
      LastEntriesSound(all, MONTHS_KEPT + 1);
      WithoutLosesOne(last, key);
      LastOfConcat(Without(older, key), Without(last, key), MONTHS_KEPT);
    } else {
      assert older == [];
    }
    LastWithOneMore(Without(all, key), CacheEntry(key, body), MONTHS_KEPT);
  }

  lemma LastOfConcat(a: seq<CacheEntry>, b: seq<CacheEntry>, n: nat)
    requires |b| >= n
    ensures LastEntries(a + b, n) == LastEntries(b, n)
  {
    assert (a + b)[|a| + |b| - n..] == b[|b| - n..];
    assert b[0..] == b;
  }

  lemma LastWithOneMore(a: seq<CacheEntry>, e: CacheEntry, n: nat)
    ensures LastEntries(a + [e], n + 1) == LastEntries(a, n) + [e]
  {
    if |a| > n {
      assert (a + [e])[|a| - n..] == a[|a| - n..] + [e];
    }
  }

  /** What an event files in the cache: the answer to a month request still wanted. */
  function Files(p: Panel, e: Event): seq<CacheEntry> {
    if e.Settle? && e.reply.Answered? && e.id in p.flights && !p.flights[e.id].aborted
       && p.flights[e.id].request.MonthRequest?
    then [CacheEntry(p.flights[e.id].request.month, MonthView(p.flights[e.id].request.month, e.reply.revision))] else []
  }

  /** Everything filed along a run, in order. */
  function Filed(p: Panel, server: Server, events: seq<Event>): seq<CacheEntry>
    decreases |events|
  {
    if events == [] then [] else Files(p, events[0]) + Filed(Step(p, server, events[0]), server, events[1..])
  }

  lemma StepFiles(p: Panel, server: Server, e: Event)
    ensures Step(p, server, e).months.cache
            == if Files(p, e) == [] then p.months.cache else CachePut(p.months.cache, Files(p, e)[0].key, Files(p, e)[0].body)
  {
    if e.Navigate? {
      NavigateFields(p, e.month, e.parsedDate);
    }
  }

  lemma CacheHistoryStep(p: Panel, server: Server, e: Event, filed: seq<CacheEntry>)
    requires p.months.cache == LastEntries(Latest(filed), MONTHS_KEPT + 1)
    ensures Step(p, server, e).months.cache == LastEntries(Latest(filed + Files(p, e)), MONTHS_KEPT + 1)
  {
    StepFiles(p, server, e);
    if Files(p, e) == [] {
      assert filed + [] == filed;
    } else {
      var f := Files(p, e)[0];
      LatestDistinct(filed);
      PutKeepsLast(Latest(filed), f.key, f.body);
      LatestAnother(filed, f);
    }
  }

  lemma FilesFirst(p: Panel, server: Server, events: seq<Event>, filed: seq<CacheEntry>) returns (q: Panel, files: seq<CacheEntry>)
    requires events != []
    ensures q == Step(p, server, events[0]) && files == Files(p, events[0])
    ensures Run(p, server, events) == Run(q, server, events[1..])
    ensures filed + Filed(p, server, events) == (filed + files) + Filed(q, server, events[1..])
  {
    q, files := Step(p, server, events[0]), Files(p, events[0]);
  }

  lemma {:induction false} CacheHistoryFrom(p: Panel, server: Server, events: seq<Event>, filed: seq<CacheEntry>)
    requires p.months.cache == LastEntries(Latest(filed), MONTHS_KEPT + 1)
    ensures Run(p, server, events).months.cache
            == LastEntries(Latest(filed + Filed(p, server, events)), MONTHS_KEPT + 1)
    decreases |events|
  {
    if events == [] {
      assert filed + [] == filed;
    } else {
      CacheHistoryStep(p, server, events[0], filed);
      var q, files := FilesFirst(p, server, events, filed);
      CacheHistoryFrom(q, server, events[1..], filed + files);
    }
  }

  /** Over every run the cache is the six months answered last, each with its latest
      answer, in the order they were answered; the month handed over counts as the first. */
  lemma CacheHistory(props: Props, server: Server, month: string, parsedDate: Option<string>, events: seq<Event>)
    ensures Session(props, server, month, parsedDate, events).months.cache
            == LastEntries(Latest(HandedOver(props) + Filed(Mount(props, month, parsedDate), server, events)), 6)
  {
    var handed := HandedOver(props);
    if handed != [] {
      assert handed[1..] == [];
      assert Keys([]) == {};
      assert Latest(handed) == handed;
    }
    CacheHistoryFrom(Mount(props, month, parsedDate), server, events, handed);
  }

  // ---------- what each event is for ----------

  /** An answer that is still wanted is shown: the month filed last, the day from its first
      row, the page after the rows before it. */
  lemma LiveAnswerLands(p: Panel, server: Server, id: nat, limit: nat, revision: nat)
    requires Inv(p, server) && LiveRequest(p, id) && limit >= 1
    ensures var q := Step(p, server, Settle(id, Answered(limit, revision)));
            match p.flights[id].request
            case MonthRequest(month) =>
              && !q.months.loading && q.days == p.days && month == p.monthKey
              && |q.months.cache| > 0
              && q.months.cache[|q.months.cache| - 1] == CacheEntry(month, MonthView(month, revision))
            case DayRequest(date) =>
              && !q.days.loading && q.months == p.months && q.days.day.Some?
              && q.days.day.value.executions == FirstRows(server(date), limit)
            case PageRequest(date, offset) =>
              && !q.days.moreLoading && q.months == p.months && q.days.day.Some?
              && q.days.day.value.executions == FirstRows(server(date), offset + limit)
  {
    var request := p.flights[id].request;
    if request.PageRequest? {
      var list := server(request.date);
      assert DayWaits(p) == Some(request);
      PrefixExtends(list, p.days.day.value.executions, |FirstRows(list, request.offset + limit)|);
    }
  }

  function FirstRows(list: seq<Execution>, n: nat): seq<Execution> {
    if n < |list| then list[..n] else list
  }

  /** A failure that is still wanted is reported, costs no data, and leaves the month to be asked for again. */
  lemma LiveFailureReported(p: Panel, server: Server, id: nat)
    requires Inv(p, server) && LiveRequest(p, id)
    ensures var q := Step(p, server, Settle(id, Failed));
            && q.months.cache == p.months.cache && q.days.day == p.days.day
            && match p.flights[id].request
               case MonthRequest(month) => q.months.error && !q.months.loading && month !in q.months.requested && q.days == p.days
               case DayRequest(_) => q.days.error && !q.days.loading && q.months == p.months
               case PageRequest(_, _) => q.days.moreError && !q.days.moreLoading && q.months == p.months
  {
  }

  /** The one request the day channel waits for. */
  ghost predicate AsksOnly(p: Panel, request: Request) {
    && (exists id :: LiveRequest(p, id) && p.flights[id].request == request)
    && forall id | LiveRequest(p, id) && !p.flights[id].request.MonthRequest? :: p.flights[id].request == request
  }

  lemma WaitsAlone(p: Panel)
    requires ControllersTrackRequests(p) && DayWaits(p).Some? && !DayWaits(p).value.MonthRequest?
    ensures AsksOnly(p, DayWaits(p).value)
  {
    assert LiveRequest(p, p.days.controller.value);
  }

  lemma PrefixRest(month: string, date: string)
    ensures month + "-" <= date <==> exists rest :: date == month + "-" + rest
  {
    if month + "-" <= date {
      assert date == month + "-" + date[|month + "-"|..];
    }
  }

  /** A URL whose date is the month, a dash and anything selects that date, and a newly
      selected date is asked for with the inspector emptied. */
  lemma UrlSelectsDay(p: Panel, server: Server, month: string, rest: string)
    requires Inv(p, server)
    ensures var date := month + "-" + rest;
            var q := Step(p, server, Navigate(month, Some(date)));
            && q.monthKey == month && q.date == Some(date)
            && (p.date != Some(date) ==>
                  && AsksOnly(q, DayRequest(date)) && q.days.loading && q.days.day.None?
                  && !q.days.error && !q.days.moreLoading && !q.days.moreError)
            && (p.date == Some(date) ==> q.days == p.days)
  {
    var date := month + "-" + rest;
    NavigateFields(p, month, Some(date));
    NavigateKeeps(p, server, month, Some(date));
    var q := Step(p, server, Navigate(month, Some(date)));
    if p.date != Some(date) {
      assert DayWaits(q) == Some(DayRequest(date));
      WaitsAlone(q);
    }
  }

  /** Any other date in the URL, or none, selects nothing: the inspector closes. */
  lemma UrlSelectsNothing(p: Panel, server: Server, month: string, parsedDate: Option<string>)
    requires Inv(p, server) && forall rest :: parsedDate != Some(month + "-" + rest)
    ensures var q := Step(p, server, Navigate(month, parsedDate));
            && q.monthKey == month && q.date.None? && q.days.day.None? && !q.days.loading
            && (p.date.Some? ==> !q.days.error)
            && forall id | LiveRequest(q, id) :: q.flights[id].request.MonthRequest?
  {
    if parsedDate.Some? {
      PrefixRest(month, parsedDate.value);
    }
    NavigateFields(p, month, parsedDate);
    NavigateKeeps(p, server, month, parsedDate);
  }

  /** First render: the URL's month and date, what the page handed over, and what is asked for. */
  lemma FirstRender(props: Props, server: Server, month: string, parsedDate: Option<string>)
    ensures var p := Mount(props, month, parsedDate);
            && p.monthKey == month
            && p.months.cache == (match props.initialMonth
                                  case None => []
                                  case Some(r) => [CacheEntry(props.initialMonthKey, MonthView(props.initialMonthKey, r))])
            && (p.months.loading <==> month != props.initialMonthKey || (props.initialMonth.None? && !props.initialError))
            && (p.months.error <==> props.initialError && !p.months.loading)
            && (forall rest | parsedDate == Some(month + "-" + rest) ::
                  p.date == parsedDate && AsksOnly(p, DayRequest(parsedDate.value)))
            && ((forall rest :: parsedDate != Some(month + "-" + rest)) ==> p.date.None? && !p.days.loading)
  {
    var p := Mount(props, month, parsedDate);
    MountEstablishes(props, server, month, parsedDate);
    if parsedDate.Some? {
      PrefixRest(month, parsedDate.value);
    }
    if parsedDate.Some? && month + "-" <= parsedDate.value {
      assert DayWaits(p) == Some(DayRequest(parsedDate.value));
      WaitsAlone(p);
    }
  }

  /** A refresh asks again for the month on screen, which stays there, and for the open day. */
  lemma RefreshReloads(p: Panel, server: Server)
    requires Inv(p, server)
    ensures var q := Step(p, server, Refresh);
            && q.monthKey == p.monthKey && q.date == p.date
            && MonthAsked(p, q)
            && (if p.date.Some? then DayAsked(q, p.date.value) else q.days == p.days)
  {
    StepKeepsInvariant(p, server, Refresh);
    var q := Step(p, server, Refresh);
    assert LiveRequest(q, q.months.controller.value);
    if p.date.Some? {
      assert DayWaits(q) == Some(DayRequest(p.date.value));
      WaitsAlone(q);
    }
  }

  /** The month on screen is being asked for afresh; what is cached stays. */
  ghost predicate MonthAsked(p: Panel, q: Panel) {
    && q.months.loading && !q.months.error && q.months.cache == p.months.cache
    && exists id :: LiveRequest(q, id) && id !in p.flights && q.flights[id].request == MonthRequest(p.monthKey)
  }

  /** The day is being asked for afresh and the inspector is empty. */
  ghost predicate DayAsked(q: Panel, date: string) {
    && AsksOnly(q, DayRequest(date))
    && q.days.loading && q.days.day.None? && !q.days.error && !q.days.moreLoading && !q.days.moreError
  }

  /** Retrying the month does that for the month only. */
  lemma RetryMonthReloads(p: Panel, server: Server)
    requires Inv(p, server)
    ensures var q := Step(p, server, RetryMonth);
            MonthAsked(p, q) && q.monthKey == p.monthKey && q.date == p.date && q.days == p.days
  {
    var q := Step(p, server, RetryMonth);
    assert LiveRequest(q, q.months.controller.value);
  }

  /** Retrying the day does that for the open day only, and without one nothing. */
  lemma RetryDayReloads(p: Panel, server: Server)
    requires Inv(p, server)
    ensures var q := Step(p, server, RetryDay);
            if p.date.Some?
            then DayAsked(q, p.date.value) && q.months == p.months && q.monthKey == p.monthKey && q.date == p.date
            else q == p
  {
    StepKeepsInvariant(p, server, RetryDay);
    var q := Step(p, server, RetryDay);
    if p.date.Some? {
      assert DayWaits(q) == Some(DayRequest(p.date.value));
      WaitsAlone(q);
    }
  }

  /** Load more asks for the rows after those on screen when there are more and none are on
      their way, keeps what is shown, and otherwise does nothing. */
  lemma LoadMoreAsks(p: Panel, server: Server)
    requires Inv(p, server)
    ensures var q := Step(p, server, LoadMore);
            if p.days.day.Some? && p.days.day.value.hasMore && !p.days.moreLoading
            then
              && AsksOnly(q, PageRequest(p.days.day.value.date, |p.days.day.value.executions|))
              && q.days.moreLoading && !q.days.moreError && q.days.day == p.days.day
              && q.months == p.months && q.monthKey == p.monthKey && q.date == p.date
            else q == p
  {
    StepKeepsInvariant(p, server, LoadMore);
    var q := Step(p, server, LoadMore);
    if p.days.day.Some? && p.days.day.value.hasMore && !p.days.moreLoading {
      assert DayWaits(q) == Some(PageRequest(p.days.day.value.date, |p.days.day.value.executions|));
      WaitsAlone(q);
    }
  }

  /** Going to another month asks for it again unless it counts as requested; what is cached paints meanwhile. */
  lemma VisitRevalidates(p: Panel, server: Server, month: string, parsedDate: Option<string>)
    requires Inv(p, server) && month != p.monthKey
    ensures var q := Step(p, server, Navigate(month, parsedDate));
            && q.monthKey == month && q.months.cache == p.months.cache
            && (q.months.loading <==> month !in p.months.requested)
            && p.monthKey !in q.months.requested
  {
    NavigateFields(p, month, parsedDate);
    var left := Leave(p, month, DateParam(month, parsedDate));
    assert left.months == p.months.(requested := p.months.requested - {p.monthKey});
    assert NavigateSpec(p, month, parsedDate).months == EnterMonth(left).months;
  }

  /** No month is being asked for, and the one on screen counts as asked for. */
  ghost predicate MonthQuiet(p: Panel) {
    && !p.months.loading && p.monthKey in p.months.requested
    && forall id <- p.flights :: !p.flights[id].request.MonthRequest?
  }

  /** An event that neither leaves the month nor asks for it by hand. */
  predicate WithinMonth(e: Event, month: string) {
    match e
    case Navigate(m, _) => m == month
    case Refresh => false
    case RetryMonth => false
    case _ => true
  }

  lemma {:induction false} MonthStaysQuiet(p: Panel, server: Server, events: seq<Event>)
    requires MonthQuiet(p) && forall e <- events :: WithinMonth(e, p.monthKey)
    ensures MonthQuiet(Run(p, server, events)) && Run(p, server, events).months == p.months
    decreases |events|
  {
    if events != [] {
      assert events[0] in events;
      assert forall e :: e in events[1..] ==> e in events;
      QuietStep(p, server, events[0]);
      MonthStaysQuiet(Step(p, server, events[0]), server, events[1..]);
    }
  }

  lemma QuietStep(p: Panel, server: Server, e: Event)
    requires MonthQuiet(p) && WithinMonth(e, p.monthKey)
    ensures var q := Step(p, server, e); MonthQuiet(q) && q.months == p.months && q.monthKey == p.monthKey
  {
  }

  /** The month the server rendered, or failed to, is not fetched a second time, whatever
      days and pages are opened, until the reader leaves it or asks for it. */
  lemma InitialMonthNotRefetched(props: Props, server: Server, parsedDate: Option<string>, events: seq<Event>)
    requires props.initialMonth.Some? || props.initialError
    requires forall e <- events :: WithinMonth(e, props.initialMonthKey)
    ensures MonthQuiet(Session(props, server, props.initialMonthKey, parsedDate, events))
  {
    MonthStaysQuiet(Mount(props, props.initialMonthKey, parsedDate), server, events);
  }

  // ---------- late responses ----------

  /** Equal for the user and for every later event: only dead requests may differ. */
  ghost predicate Same(p: Panel, q: Panel) {
    && p.monthKey == q.monthKey && p.date == q.date && p.months == q.months && p.days == q.days
    && p.nextId == q.nextId && Live(p.flights) == Live(q.flights)
  }

  predicate StaleResponse(p: Panel, e: Event) {
    e.Settle? && e.id !in Live(p.flights)
  }

  /** The run without the responses that came back after their request was aborted. */
  function WithoutStale(p: Panel, server: Server, events: seq<Event>): seq<Event>
    decreases |events|
  {
    if events == [] then []
    else
      var rest := WithoutStale(Step(p, server, events[0]), server, events[1..]);
      if StaleResponse(p, events[0]) then rest else [events[0]] + rest
  }

  lemma LiveAfterAbort(flights: map<nat, Flight>, controller: Option<nat>)
    ensures Live(AbortFlight(flights, controller))
            == Live(flights) - (if controller.Some? then {controller.value} else {})
  {
  }

  lemma LiveAfterStart(flights: map<nat, Flight>, controller: Option<nat>, id: nat, request: Request)
    ensures Live(AbortFlight(flights, controller)[id := Flight(request, false)])
            == (Live(flights) - (if controller.Some? then {controller.value} else {}))[id := request]
  {
    LiveAfterAbort(flights, controller);
  }

  lemma LiveAfterLanding(flights: map<nat, Flight>, id: nat)
    ensures Live(flights - {id}) == Live(flights) - {id}
  {
  }

  lemma LoadMonthSame(p: Panel, q: Panel, key: string)
    requires Same(p, q)
    ensures Same(LoadMonthSpec(p, key), LoadMonthSpec(q, key))
  {
    LiveAfterStart(p.flights, p.months.controller, p.nextId, MonthRequest(key));
    LiveAfterStart(q.flights, q.months.controller, q.nextId, MonthRequest(key));
  }

  lemma LoadDaySame(p: Panel, q: Panel, date: string)
    requires Same(p, q)
    ensures Same(LoadDaySpec(p, date), LoadDaySpec(q, date))
  {
    LiveAfterStart(p.flights, p.days.controller, p.nextId, DayRequest(date));
    LiveAfterStart(q.flights, q.days.controller, q.nextId, DayRequest(date));
  }

  lemma LeaveSame(p: Panel, q: Panel, month: string, date: Option<string>)
    requires Same(p, q)
    ensures Same(LeaveMonth(p, month), LeaveMonth(q, month))
    ensures Same(LeaveDay(p, date), LeaveDay(q, date))
  {
    LiveAfterAbort(p.flights, p.months.controller);
    LiveAfterAbort(q.flights, q.months.controller);
    LiveAfterAbort(p.flights, p.days.controller);
    LiveAfterAbort(q.flights, q.days.controller);
  }

  lemma EnterDaySame(p: Panel, q: Panel)
    requires Same(p, q)
    ensures Same(EnterDay(p), EnterDay(q))
  {
    if p.date.None? {
      LiveAfterAbort(p.flights, p.days.controller);
      LiveAfterAbort(q.flights, q.days.controller);
    } else {
      LoadDaySame(p, q, p.date.value);
    }
  }

  lemma EnterMonthSame(p: Panel, q: Panel)
    requires Same(p, q)
    ensures Same(EnterMonth(p), EnterMonth(q))
  {
    LoadMonthSame(p.(months := p.months.(loading := false)), q.(months := q.months.(loading := false)), p.monthKey);
  }

  lemma NavigateSame(p: Panel, q: Panel, month: string, parsedDate: Option<string>)
    requires Same(p, q)
    ensures Same(NavigateSpec(p, month, parsedDate), NavigateSpec(q, month, parsedDate))
  {
    var date := DateParam(month, parsedDate);
    LeaveSame(p, q, month, date);
    LeaveSame(LeaveMonth(p, month), LeaveMonth(q, month), month, date);
    var p', q' := Leave(p, month, date), Leave(q, month, date);
    assert Same(p', q');
    EnterMonthSame(p', q');
    if month == p.monthKey {
      EnterDaySame(p', q');
    } else {
      EnterDaySame(EnterMonth(p'), EnterMonth(q'));
    }
  }

  lemma LoadMoreSame(p: Panel, q: Panel)
    requires Same(p, q)
    ensures Same(LoadMoreSpec(p), LoadMoreSpec(q))
  {
    if CanLoadMore(p) {
      var request := PageRequest(p.days.day.value.date, |p.days.day.value.executions|);
      LiveAfterStart(p.flights, p.days.controller, p.nextId, request);
      LiveAfterStart(q.flights, q.days.controller, q.nextId, request);
    }
  }

  lemma StaleStepSame(p: Panel, server: Server, e: Event)
    requires StaleResponse(p, e)
    ensures Same(Step(p, server, e), p)
  {
    LiveAfterLanding(p.flights, e.id);
  }

  lemma SettleSame(p: Panel, q: Panel, server: Server, id: nat, reply: Reply)
    requires Same(p, q)
    ensures Same(SettleSpec(p, server, id, reply), SettleSpec(q, server, id, reply))
  {
    if id in Live(p.flights) {
      LiveAfterLanding(p.flights, id);
      LiveAfterLanding(q.flights, id);
      assert id in Live(q.flights) && Live(p.flights)[id] == Live(q.flights)[id];
    } else {
      assert id !in Live(q.flights);
      StaleStepSame(p, server, Settle(id, reply));
      StaleStepSame(q, server, Settle(id, reply));
    }
  }

  lemma StepSame(p: Panel, q: Panel, server: Server, e: Event)
    requires Same(p, q)
    ensures Same(Step(p, server, e), Step(q, server, e))
  {
    match e
    case Navigate(month, parsedDate) => NavigateSame(p, q, month, parsedDate);
    case Refresh =>
      LoadMonthSame(p, q, p.monthKey);
      if p.date.Some? {
        LoadDaySame(LoadMonthSpec(p, p.monthKey), LoadMonthSpec(q, q.monthKey), p.date.value);
      }
    case RetryMonth => LoadMonthSame(p, q, p.monthKey);
    case RetryDay =>
      if p.date.Some? {
        LoadDaySame(p, q, p.date.value);
      }
    case LoadMore => LoadMoreSame(p, q);
    case Settle(id, reply) => SettleSame(p, q, server, id, reply);
  }

  lemma {:induction false} StaleResponsesInvisibleFrom(p: Panel, q: Panel, server: Server, events: seq<Event>)
    requires Same(p, q)
    ensures Same(Run(p, server, events), Run(q, server, WithoutStale(p, server, events)))
    decreases |events|
  {
    if events != [] {
      var e := events[0];
      if StaleResponse(p, e) {
        StaleStepSame(p, server, e);
        StaleResponsesInvisibleFrom(Step(p, server, e), q, server, events[1..]);
      } else {
        StepSame(p, q, server, e);
        StaleResponsesInvisibleFrom(Step(p, server, e), Step(q, server, e), server, events[1..]);
        var pruned := WithoutStale(p, server, events);
        assert pruned[0] == e && pruned[1..] == WithoutStale(Step(p, server, e), server, events[1..]);
      }
    }
  }

  /** However late an aborted request answers, and with whatever body, the run ends as if
      that answer had never come. */
  lemma StaleResponsesInvisible(
    props: Props, server: Server, month: string, parsedDate: Option<string>, events: seq<Event>)
    ensures var start := Mount(props, month, parsedDate);
            Same(Run(start, server, events), Run(start, server, WithoutStale(start, server, events)))
  {
    StaleResponsesInvisibleFrom(Mount(props, month, parsedDate), Mount(props, month, parsedDate), server, events);
  }

  // ---------- load more makes progress ----------

  function Remaining(p: Panel, server: Server): int {
    if p.days.day.Some? then |server(p.days.day.value.date)| - |p.days.day.value.executions| else 0
  }

  /** Ask for a page and let it arrive. */
  function PageRound(p: Panel, server: Server, limit: nat): Panel {
    Step(Step(p, server, LoadMore), server, Settle(p.nextId, Answered(limit, 0)))
  }

  function PageRounds(p: Panel, server: Server, limits: seq<nat>): Panel
    decreases |limits|
  {
    if limits == [] then p else PageRounds(PageRound(p, server, limits[0]), server, limits[1..])
  }

  lemma PageRoundShrinks(p: Panel, server: Server, limit: nat)
    requires Inv(p, server) && p.days.day.Some? && !p.days.moreLoading
    ensures var q := PageRound(p, server, limit);
            && Inv(q, server) && q.days.day.Some? && !q.days.moreLoading && q.date == p.date
            && 0 <= Remaining(q, server) <= Remaining(p, server)
            && (p.days.day.value.hasMore ==> Remaining(q, server) < Remaining(p, server))
  {
    var asked := Step(p, server, LoadMore);
    StepKeepsInvariant(p, server, LoadMore);
    StepKeepsInvariant(asked, server, Settle(p.nextId, Answered(limit, 0)));
    if p.days.day.value.hasMore {
      assert asked.flights[p.nextId].request == PageRequest(p.days.day.value.date, |p.days.day.value.executions|);
    } else {
      assert p.nextId !in p.flights;
    }
  }

  /** Whatever the page sizes, as many pages as rows are left load the whole day. */
  lemma {:induction false} PagingCompletes(p: Panel, server: Server, limits: seq<nat>)
    requires Inv(p, server) && p.days.day.Some? && !p.days.moreLoading
    requires Remaining(p, server) <= |limits|
    ensures var q := PageRounds(p, server, limits);
            && q.date == p.date && q.days.day.Some? && !q.days.day.value.hasMore
            && q.days.day.value.executions == server(q.days.day.value.date)
    decreases |limits|
  {
    if limits != [] {
      PageRoundShrinks(p, server, limits[0]);
      PagingCompletes(PageRound(p, server, limits[0]), server, limits[1..]);
    }
  }

  lemma PageRoundExact(p: Panel, server: Server, limit: nat)
    requires Inv(p, server) && p.days.day.Some? && !p.days.moreLoading && limit >= 1
    ensures var q := PageRound(p, server, limit);
            && Inv(q, server) && q.days.day.Some? && !q.days.moreLoading && q.date == p.date
            && Remaining(q, server) == if Remaining(p, server) > limit then Remaining(p, server) - limit else 0
  {
    PageRoundShrinks(p, server, limit);
    var asked := Step(p, server, LoadMore);
    if p.days.day.value.hasMore {
      StepKeepsInvariant(p, server, LoadMore);
      assert LiveRequest(asked, p.nextId);
      assert asked.flights[p.nextId].request == PageRequest(p.days.day.value.date, |p.days.day.value.executions|);
      LiveAnswerLands(asked, server, p.nextId, limit, 0);
    } else {
      assert p.nextId !in p.flights;
    }
  }

  function Pages(limit: nat, n: nat): seq<nat> {
    if n == 0 then [] else [limit] + Pages(limit, n - 1)
  }

  /** With pages of one size, as many as it takes to hold the rows that are left are
      enough, and one fewer is not. */
  lemma {:induction false} PagesNeeded(p: Panel, server: Server, limit: nat, n: nat)
    requires Inv(p, server) && p.days.day.Some? && !p.days.moreLoading && limit >= 1
    ensures var q := PageRounds(p, server, Pages(limit, n));
            && q.date == p.date && q.days.day.Some?
            && (!q.days.day.value.hasMore <==> n >= (Remaining(p, server) + limit - 1) / limit)
            && (!q.days.day.value.hasMore <==> q.days.day.value.executions == server(q.days.day.value.date))
    decreases n
  {
    RemainingMeansMore(p, server);
    if n == 0 {
      PagesRounding(Remaining(p, server), limit, 0);
    } else {
      PageRoundExact(p, server, limit);
      assert Pages(limit, n)[1..] == Pages(limit, n - 1);
      PagesNeeded(PageRound(p, server, limit), server, limit, n - 1);
      OnePageLess(Remaining(p, server), Remaining(PageRound(p, server, limit), server), limit, n);
    }
  }

  lemma OnePageLess(rows: int, left: int, limit: int, n: int)
    requires limit >= 1 && n >= 1 && left == if rows > limit then rows - limit else 0
    ensures n - 1 >= (left + limit - 1) / limit <==> n >= (rows + limit - 1) / limit
  {
    PagesRounding(rows, limit, n);
    PagesRounding(left, limit, n - 1);
    assert n * limit == (n - 1) * limit + limit && (n - 1) * limit >= 0;
  }

  lemma RemainingMeansMore(p: Panel, server: Server)
    requires Inv(p, server) && p.days.day.Some?
    ensures Remaining(p, server) >= 0
    ensures p.days.day.value.hasMore <==> Remaining(p, server) > 0
    ensures !p.days.day.value.hasMore <==> p.days.day.value.executions == server(p.days.day.value.date)
  {
  }

  lemma PagesRounding(rows: int, limit: int, n: int)
    requires limit >= 1
    ensures n >= (rows + limit - 1) / limit <==> rows <= n * limit
  {
    var q, r := (rows + limit - 1) / limit, (rows + limit - 1) % limit;
    assert rows + limit - 1 == q * limit + r;
    if n >= q {
      assert n * limit >= q * limit;
    } else {
      assert n * limit <= (q - 1) * limit == q * limit - limit;
    }
  }

  // ---------- the calendar is never silently empty ----------

  ghost predicate MonthExplained(p: Panel) {
    p.monthKey in Keys(p.months.cache) || p.months.loading || p.months.error
  }

  ghost predicate OnlyOnScreenRequested(p: Panel) {
    p.months.requested <= {p.monthKey}
  }

  lemma NavigateExplained(p: Panel, month: string, parsedDate: Option<string>)
    requires OnlyOnScreenRequested(p) && MonthExplained(p)
    ensures OnlyOnScreenRequested(NavigateSpec(p, month, parsedDate))
    ensures MonthExplained(NavigateSpec(p, month, parsedDate))
  {
    var left := Leave(p, month, DateParam(month, parsedDate));
    assert left.months == if month == p.monthKey then p.months
                          else p.months.(requested := p.months.requested - {p.monthKey});
    var entered := if month == p.monthKey then left else EnterMonth(left);
    assert NavigateSpec(p, month, parsedDate).months == entered.months;
  }

  lemma SettleExplained(p: Panel, server: Server, id: nat, reply: Reply)
    requires Inv(p, server) && OnlyOnScreenRequested(p) && MonthExplained(p)
    ensures OnlyOnScreenRequested(SettleSpec(p, server, id, reply))
    ensures MonthExplained(SettleSpec(p, server, id, reply))
  {
    if id in p.flights && !p.flights[id].aborted && p.flights[id].request.MonthRequest? {
      assert MonthWaits(p) == Some(MonthRequest(p.monthKey));
      if reply.Answered? {
        CachePutSound(p.months.cache, p.monthKey, MonthView(p.monthKey, reply.revision));
      }
    }
  }

  lemma StepKeepsExplained(p: Panel, server: Server, e: Event)
    requires Inv(p, server) && OnlyOnScreenRequested(p) && MonthExplained(p)
    ensures OnlyOnScreenRequested(Step(p, server, e)) && MonthExplained(Step(p, server, e))
  {
    match e
    case Navigate(month, parsedDate) => NavigateExplained(p, month, parsedDate);
    case Settle(id, reply) => SettleExplained(p, server, id, reply);
    case _ =>
  }

  lemma {:induction false} RunKeepsExplained(p: Panel, server: Server, events: seq<Event>)
    requires Inv(p, server) && OnlyOnScreenRequested(p) && MonthExplained(p)
    ensures OnlyOnScreenRequested(Run(p, server, events)) && MonthExplained(Run(p, server, events))
    decreases |events|
  {
    if events != [] {
      StepKeepsInvariant(p, server, events[0]);
      StepKeepsExplained(p, server, events[0]);
      RunKeepsExplained(Step(p, server, events[0]), server, events[1..]);
    }
  }

  /** The page hands over the month its own URL names, so the calendar always has data, a
      spinner or an error to show. */
  lemma MonthNeverBlank(props: Props, server: Server, month: string, parsedDate: Option<string>, events: seq<Event>)
    requires month == props.initialMonthKey || (props.initialMonth.None? && !props.initialError)
    ensures MonthExplained(Session(props, server, month, parsedDate, events))
  {
    var start := Mount(props, month, parsedDate);
    MountEstablishes(props, server, month, parsedDate);
    if props.initialMonth.Some? {
      assert start.months.cache[0] in start.months.cache;
    }
    RunKeepsExplained(start, server, events);
  }

  /** Under the same condition every later visit to a month asks for it again, whatever
      came before, while what is cached paints. */
  lemma EveryVisitRevalidates(props: Props, server: Server, month: string, parsedDate: Option<string>, events: seq<Event>,
                              visited: string, date: Option<string>)
    requires month == props.initialMonthKey || (props.initialMonth.None? && !props.initialError)
    ensures var p := Session(props, server, month, parsedDate, events);
            var q := Step(p, server, Navigate(visited, date));
            visited != p.monthKey ==>
              q.monthKey == visited && q.months.cache == p.months.cache && MonthWaits(q) == Some(MonthRequest(visited))
  {
    var start := Mount(props, month, parsedDate);
    MountEstablishes(props, server, month, parsedDate);
    if props.initialMonth.Some? {
      assert start.months.cache[0] in start.months.cache;
    }
    RunKeepsExplained(start, server, events);
    RunKeepsInvariant(start, server, events);
    var p := Session(props, server, month, parsedDate, events);
    if visited != p.monthKey {
      VisitRevalidates(p, server, visited, date);
      NavigateKeeps(p, server, visited, date);
    }
  }

  // ---------- and when it can be ----------

  /** Visit `keys` one after another, letting each month's answer arrive. */
  function Tour(nextId: nat, keys: seq<string>): seq<Event>
    decreases |keys|
  {
    if keys == [] then []
    else [Navigate(keys[0], None), Settle(nextId, Answered(0, 0))] + Tour(nextId + 1, keys[1..])
  }

  ghost predicate AwayFrom(p: Panel, initial: string) {
    && p.monthKey != initial && p.months.requested == {initial, p.monthKey}
    && p.date.None? && !p.months.loading && !p.months.error
  }

  lemma {:induction false} RunAppend(p: Panel, server: Server, first: seq<Event>, second: seq<Event>)
    ensures Run(p, server, first + second) == Run(Run(p, server, first), server, second)
    decreases |first|
  {
    if first == [] {
      assert first + second == second;
    } else {
      assert (first + second)[1..] == first[1..] + second;
      RunAppend(Step(p, server, first[0]), server, first[1..], second);
    }
  }

  lemma {:induction false} WithoutNothing(cache: seq<CacheEntry>, key: string)
    requires key !in Keys(cache)
    ensures Without(cache, key) == cache
  {
    if cache != [] {
      assert cache[0] in cache;
      assert Keys(cache[1..]) <= Keys(cache);
      WithoutNothing(cache[1..], key);
    }
  }

  /** One more month is visited and answers: it is filed after the others. */
  lemma VisitFiles(p: Panel, server: Server, initial: string, key: string)
    requires AwayFrom(p, initial) && key !in Keys(p.months.cache) && key != initial && key != p.monthKey
    ensures var visit := [Navigate(key, None), Settle(p.nextId, Answered(0, 0))];
            var q := Run(p, server, visit);
            && AwayFrom(q, initial) && q.monthKey == key && q.nextId == p.nextId + 1
            && q.months.cache == LastEntries(p.months.cache, MONTHS_KEPT) + [CacheEntry(key, MonthView(key, 0))]
  {
    var visit := [Navigate(key, None), Settle(p.nextId, Answered(0, 0))];
    var asked := Step(p, server, visit[0]);
    assert asked.flights[p.nextId] == Flight(MonthRequest(key), false);
    WithoutNothing(p.months.cache, key);
    var q := Step(asked, server, visit[1]);
    assert visit[1..] == [visit[1]];
    assert Run(asked, server, [visit[1]]) == Run(q, server, []);
  }

  /** A month that was requested but not visited can be pushed out of the cache by others. */
  lemma {:induction false} TourEvicts(p: Panel, server: Server, initial: string, keys: seq<string>)
    requires AwayFrom(p, initial) && 1 < |p.months.cache| && keys != [] && |keys| + |p.months.cache| == MONTHS_KEPT + 2
    requires p.months.cache[0].key == initial
    requires forall i | 1 <= i < |p.months.cache| :: p.months.cache[i].key != initial && p.months.cache[i].key !in keys
    requires initial !in keys && p.monthKey !in keys
    requires forall i, j | 0 <= i < j < |keys| :: keys[i] != keys[j]
    ensures var q := Run(p, server, Tour(p.nextId, keys));
            AwayFrom(q, initial) && initial !in Keys(q.months.cache)
    decreases |keys|
  {
    var key := keys[0];
    assert key in keys;
    VisitFiles(p, server, initial, key);
    var visit := [Navigate(key, None), Settle(p.nextId, Answered(0, 0))];
    var q := Run(p, server, visit);
    RunAppend(p, server, visit, Tour(p.nextId + 1, keys[1..]));
    if |keys| == 1 {
      assert Tour(p.nextId + 1, keys[1..]) == [];
    } else {
      assert forall k | k in keys[1..] :: k in keys;
      TourEvicts(q, server, initial, keys[1..]);
    }
  }

  /** If the URL's month is not the one the page handed over, some run ends on an empty
      calendar with nothing loading and no error. */
  lemma BlankMonthReachable(props: Props, server: Server, month: string, others: seq<string>)
    requires month != props.initialMonthKey && (props.initialMonth.Some? || props.initialError)
    requires |others| == MONTHS_KEPT && props.initialMonthKey !in others && month !in others
    requires forall i, j | 0 <= i < j < |others| :: others[i] != others[j]
    ensures exists events :: !MonthExplained(Session(props, server, month, None, events))
  {
    var initial := props.initialMonthKey;
    var start := Mount(props, month, None);
    var arrived := Settle(0, Answered(0, 0));
    var p := Step(start, server, arrived);
    assert start.flights == map[0 := Flight(MonthRequest(month), false)];
    var entry := CacheEntry(month, MonthView(month, 0));
    assert p.months.cache == start.months.cache + [entry] by {
      assert initial != month;
      WithoutNothing(start.months.cache, month);
    }
    assert AwayFrom(p, initial);
    var tour := if props.initialMonth.Some? then Tour(p.nextId, others) else [];
    if props.initialMonth.Some? {
      TourEvicts(p, server, initial, others);
    }
    var q := Run(p, server, tour);
    var back := Navigate(initial, None);
    assert !MonthExplained(Step(q, server, back));
    var events := [arrived] + (tour + [back]);
    RunAppend(p, server, tour, [back]);
    assert events[1..] == tour + [back];
    assert Run(q, server, [back]) == Run(Step(q, server, back), server, []);
    assert Session(props, server, month, None, events) == Step(q, server, back);
  }

  // ---------- the component itself ----------

  /** The component's state variables and refs, changed one by one as its callbacks do.
      Abort controllers are the keys of `flights`. */
  class JournalPanel {
    var monthKey: string
    var dateParam: Option<string>
    var months: seq<CacheEntry>
    var requestedMonths: set<string>
    var monthLoading: bool
    var monthError: bool
    var monthRequest: Option<nat>
    var day: Option<DayView>
    var dayLoading: bool
    var dayError: bool
    var moreLoading: bool
    var moreError: bool
    var dayRequest: Option<nat>
    var flights: map<nat, Flight>
    var nextId: nat

    ghost function Months(): MonthPane
      reads this`months, this`requestedMonths, this`monthLoading, this`monthError, this`monthRequest
    {
      MonthPane(months, requestedMonths, monthLoading, monthError, monthRequest)
    }

    ghost function Days(): DayPane
      reads this`day, this`dayLoading, this`dayError, this`moreLoading, this`moreError, this`dayRequest
    {
      DayPane(day, dayLoading, dayError, moreLoading, moreError, dayRequest)
    }

    ghost function State(): Panel
      reads this
    {
      Panel(monthKey, dateParam, Months(), Days(), flights, nextId)
    }

    constructor (props: Props, month: string, parsedDate: Option<string>)
      ensures State() == Mount(props, month, parsedDate)
    {
      monthKey, dateParam := month, DateParam(month, parsedDate);
      months := if props.initialMonth.Some?
                then [CacheEntry(props.initialMonthKey, MonthView(props.initialMonthKey, props.initialMonth.value))] else [];
      requestedMonths := if props.initialMonth.Some? || props.initialError then {props.initialMonthKey} else {};
      monthLoading, monthError, monthRequest := false, props.initialError, None;
      day, dayLoading, dayError, moreLoading, moreError, dayRequest := None, false, false, false, false, None;
      flights, nextId := map[], 0;
      new;
      MonthEffect();
      DayEffect();
    }

    /** `controller.abort()` on whatever a ref holds. */
    method Abort(controller: Option<nat>)
      modifies this`flights
      ensures flights == AbortFlight(old(flights), controller)
    {
      if controller.Some? && controller.value in flights {
        flights := flights[controller.value := flights[controller.value].(aborted := true)];
      }
    }

    /** A new controller, and the fetch it is passed to. */
    method Fetch(request: Request) returns (id: nat)
      modifies this`flights, this`nextId
      ensures id == old(nextId) && nextId == old(nextId) + 1
      ensures flights == old(flights)[id := Flight(request, false)]
    {
      id := nextId;
      flights := flights[id := Flight(request, false)];
      nextId := nextId + 1;
    }

    method LoadMonth(key: string)
      modifies this`flights, this`nextId, this`monthRequest, this`requestedMonths, this`monthLoading, this`monthError
      ensures State() == LoadMonthSpec(old(State()), key)
    {
      Abort(monthRequest);
      var id := Fetch(MonthRequest(key));
      monthRequest := Some(id);
      requestedMonths := requestedMonths + {key};
      monthLoading := true;
      monthError := false;
      assert Months() == MonthPane(old(months), old(requestedMonths) + {key}, true, false, Some(old(nextId)));
      assert Days() == old(Days());
    }

    /** Before a load the inspector shows nothing of the day it leaves. */
    method ClearDay()
      modifies this`dayLoading, this`dayError, this`day, this`moreLoading, this`moreError
      ensures Days() == DayPane(None, true, false, false, false, dayRequest)
    {
      dayLoading := true;
      dayError := false;
      day := None;
      moreLoading := false;
      moreError := false;
    }

    method LoadDay(date: string)
      modifies this`flights, this`nextId, this`dayRequest, this`dayLoading, this`dayError, this`day,
               this`moreLoading, this`moreError
      ensures State() == LoadDaySpec(old(State()), date)
    {
      Abort(dayRequest);
      var id := Fetch(DayRequest(date));
      dayRequest := Some(id);
      ClearDay();
      assert Days() == DayPane(None, true, false, false, false, Some(old(nextId)));
      assert Months() == old(Months());
    }

    method LoadMorePage()
      modifies this`flights, this`nextId, this`dayRequest, this`moreLoading, this`moreError
      ensures State() == LoadMoreSpec(old(State()))
    {
      if day.None? || Some(day.value.date) != dateParam || !day.value.hasMore || moreLoading {
        return;
      }
      Abort(dayRequest);
      var id := Fetch(PageRequest(day.value.date, |day.value.executions|));
      dayRequest := Some(id);
      moreLoading := true;
      moreError := false;
      assert Days() == old(Days()).(moreLoading := true, moreError := false, controller := Some(old(nextId)));
      assert Months() == old(Months());
    }

    method MonthEffect()
      modifies this
      ensures State() == EnterMonth(old(State()))
    {
      monthLoading := false;
      if monthKey !in requestedMonths {
        LoadMonth(monthKey);
      }
    }

    method DayEffect()
      modifies this
      ensures State() == EnterDay(old(State()))
    {
      if dateParam.None? {
        Abort(dayRequest);
        day := None;
        dayError := false;
        dayLoading := false;
        return;
      }
      LoadDay(dateParam.value);
    }

    /** The clean-ups of the effects whose inputs change, and the new inputs. */
    method CleanUp(month: string, date: Option<string>)
      modifies this
      ensures State() == Leave(old(State()), month, date)
    {
      if month != monthKey {
        Abort(monthRequest);
        requestedMonths := requestedMonths - {monthKey};
      }
      if date != dateParam && dateParam.Some? {
        Abort(dayRequest);
      }
      monthKey, dateParam := month, date;
    }

    /** The URL changes: clean-ups of the affected effects first, then the effects. */
    method GoTo(month: string, parsedDate: Option<string>)
      modifies this
      ensures State() == NavigateSpec(old(State()), month, parsedDate)
    {
      var date := DateParam(month, parsedDate);
      var monthChanged, dateChanged := month != monthKey, date != dateParam;
      CleanUp(month, date);
      if monthChanged {
        MonthEffect();
      }
      if dateChanged {
        DayEffect();
      }
    }

    method RefreshAll()
      modifies this
      ensures State() == RetryDaySpec(LoadMonthSpec(old(State()), old(monthKey)))
    {
      LoadMonth(monthKey);
      RetrySelectedDay();
    }

    method RetrySelectedDay()
      modifies this
      ensures State() == RetryDaySpec(old(State()))
    {
      if dateParam.Some? {
        LoadDay(dateParam.value);
      }
    }

    method ResumeMonth(key: string, reply: Reply)
      modifies this`months, this`requestedMonths, this`monthError, this`monthLoading
      ensures Months() == SettleMonthPane(old(Months()), key, reply)
    {
      if reply.Answered? {
        months := LastEntries(Without(months, key), MONTHS_KEPT) + [CacheEntry(key, MonthView(key, reply.revision))];
      } else {
        requestedMonths := requestedMonths - {key};
        monthError := true;
      }
      monthLoading := false;
    }

    method ResumeDay(server: Server, date: string, reply: Reply)
      modifies this`day, this`dayError, this`dayLoading
      ensures Days() == SettleDayPane(old(Days()), server, date, reply)
    {
      if reply.Answered? {
        day := Some(ServePage(server, date, 0, reply.limit));
      } else {
        dayError := true;
      }
      dayLoading := false;
    }

    method ResumePage(server: Server, date: string, offset: nat, reply: Reply)
      modifies this`day, this`moreError, this`moreLoading
      ensures Days() == SettlePagePane(old(Days()), server, date, offset, reply)
    {
      if reply.Answered? {
        var body := ServePage(server, date, offset, reply.limit);
        if day.Some? && day.value.date == body.date {
          day := Some(body.(executions := day.value.executions + body.executions));
        }
      } else {
        moreError := true;
      }
      moreLoading := false;
    }

    /** What follows `await fetch(...)` for a request still wanted. */
    method Receive(server: Server, request: Request, reply: Reply)
      modifies this
      ensures State() == Deliver(old(State()), server, request, reply)
    {
      match request
      case MonthRequest(key) => ResumeMonth(key, reply);
      case DayRequest(date) => ResumeDay(server, date, reply);
      case PageRequest(date, offset) => ResumePage(server, date, offset, reply);
    }

    /** The continuation of `await fetch(...)`: nothing after an abort, else body or error. */
    method Resume(server: Server, id: nat, reply: Reply)
      modifies this
      ensures State() == SettleSpec(old(State()), server, id, reply)
    {
      if id !in flights {
        return;
      }
      var Flight(request, aborted) := flights[id];
      flights := flights - {id};
      if !aborted {
        Receive(server, request, reply);
      }
    }

    method Dispatch(server: Server, e: Event)
      modifies this
      ensures State() == Step(old(State()), server, e)
    {
      match e
      case Navigate(month, parsedDate) => GoTo(month, parsedDate);
      case Refresh => RefreshAll();
      case RetryMonth => LoadMonth(monthKey);
      case RetryDay => RetrySelectedDay();
      case LoadMore => LoadMorePage();
      case Settle(id, reply) => Resume(server, id, reply);
    }

    /** Events one after another: what is proved of `Run` is true of the component. */
    method Play(server: Server, events: seq<Event>)
      modifies this
      ensures State() == Run(old(State()), server, events)
    {
      for i := 0 to |events|
        invariant Run(State(), server, events[i..]) == Run(old(State()), server, events)
      {
        assert events[i..][1..] == events[i + 1..];
        Dispatch(server, events[i]);
      }
    }
  }
}
