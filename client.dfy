/**
 * `getClient(options)`: an HTTP client whose interceptors drive the store's
 * loading flag and, on a failed request, post one error notification built
 * by the error table. The store is modelled by the two mutations the
 * interceptors use; a ghost log records every commit and dispatch in order.
 */
module Client {
  import opened Wrappers
  import opened Text
  import opened Translator
  import opened Classifier

  /** An option of `getClient`: absent, a boolean, or any other value. */
  datatype FlagValue = Missing | BoolValue(b: bool) | OtherValue

  datatype LoaderOptions = LoaderOptions(hideLoader: FlagValue, showLoader: FlagValue)

  /** `getClient()` with no argument: `options = {}`. */
  const NoOptions: LoaderOptions := LoaderOptions(Missing, Missing)

  /**
   * A request engages the loader unless `hideLoader` is present and exactly
   * `true`, or `showLoader` is present and exactly `false`.
   */
  predicate EngagesLoader(o: LoaderOptions)
  {
    !(o.hideLoader == BoolValue(true) || o.showLoader == BoolValue(false))
  }

  /** Only the two strict comparisons suppress the loader; the default engages it. */
  lemma LoaderSuppression(o: LoaderOptions)
    ensures EngagesLoader(NoOptions)
    ensures o.hideLoader != BoolValue(true) && o.showLoader != BoolValue(false) ==> EngagesLoader(o)
    ensures o.hideLoader == BoolValue(true) ==> !EngagesLoader(o)
    ensures o.showLoader == BoolValue(false) ==> !EngagesLoader(o)
  {
  }

  /** What the request interceptor commits: `setLoading(true)` when the options engage the loader. */
  function LoaderCommit(o: LoaderOptions): seq<StoreEvent>
  {
    if EngagesLoader(o) then [Commit(SetLoading, true)] else []
  }

  datatype RequestConfig = RequestConfig(url: string, verb: string, body: string)

  datatype Response = Response(status: int, body: string)

  /** `{type, text, timeout}` as passed to `$notify`. */
  datatype Notification = Notification(kind: string, text: string, timeoutMs: int)

  /** A commit of a boolean mutation, or a dispatch of a notification. */
  datatype StoreEvent = Commit(mutation: string, value: bool) | Dispatch(action: string, notification: Notification)

  /** The store state the client reads when it is created and when it classifies a failure. */
  datatype Settings = Settings(host: string, username: string, apiKey: string, language: string)

  /** The notifications the log dispatched, in order. */
  function Dispatched(log: seq<StoreEvent>): seq<Notification>
  {
    if log == [] then []
    else
      var e := log[|log| - 1];
      Dispatched(log[..|log| - 1]) + (if e.Dispatch? then [e.notification] else [])
  }

  /** The loading flag after the log: the last `setLoading` commit, false before any. */
  function LastLoading(log: seq<StoreEvent>): bool
  {
    if log == [] then false
    else
      var e := log[|log| - 1];
      if e.Commit? then e.value else LastLoading(log[..|log| - 1])
  }

  lemma AppendEvent(log: seq<StoreEvent>, e: StoreEvent)
    ensures Dispatched(log + [e]) == Dispatched(log) + (if e.Dispatch? then [e.notification] else [])
    ensures LastLoading(log + [e]) == if e.Commit? then e.value else LastLoading(log)
  {
    assert (log + [e])[..|log + [e]| - 1] == log;
  }

  /** `String(x)` of a captured value: the text, or `"undefined"` before any request. */
  function Shown(x: Option<string>): string
  {
    if x.None? then "undefined" else x.value
  }

  /**
   * A failure reported before any request was captured is classified with
   * `undefined` for both url and method: no rule applies and the fallback
   * names `undefined`.
   */
  lemma FailureBeforeAnyRequest(tr: Translations)
    requires HasActiveCatalog(tr) && Template(tr, Fallback) == Fallback
    ensures ErrorMessage(tr, Shown(None), Shown(None)) == "An error occured during the request! (" + "undefined" + ")"
  {
    UnknownRequestMessage(tr, "undefined", "undefined");
  }

  const SetLoading: string := "setLoading"
  const AddNotification: string := "addNotification"
  const ErrorTimeoutMs: int := 2000

  /** The part of the store the interceptors touch. */
  class Store {
    var settings: Settings
    var loading: bool
    var notifications: seq<Notification>
    ghost var log: seq<StoreEvent>

    /** The flag and the notification list are what the log of commits and dispatches made them. */
    ghost predicate Valid()
      reads this
    {
      notifications == Dispatched(log) && loading == LastLoading(log)
    }

    constructor (settings: Settings)
      ensures Valid()
      ensures this.settings == settings && !loading && notifications == [] && log == []
    {
      this.settings := settings;
      loading := false;
      notifications := [];
      log := [];
    }

    /** `commit('setLoading', value)` */
    method CommitLoading(value: bool)
      requires Valid()
      modifies this
      ensures Valid()
      ensures loading == value && log == old(log) + [Commit(SetLoading, value)]
      ensures notifications == old(notifications) && settings == old(settings)
    {
      AppendEvent(log, Commit(SetLoading, value));
      loading := value;
      log := log + [Commit(SetLoading, value)];
    }

    /** `dispatch('addNotification', n)` */
    method DispatchNotification(n: Notification)
      requires Valid()
      modifies this
      ensures Valid()
      ensures notifications == old(notifications) + [n] && log == old(log) + [Dispatch(AddNotification, n)]
      ensures loading == old(loading) && settings == old(settings)
    {
      AppendEvent(log, Dispatch(AddNotification, n));
      notifications := notifications + [n];
      log := log + [Dispatch(AddNotification, n)];
    }
  }

  /** One client from `getClient(options)`, with the url and method its last request captured. */
  class Client {
    const store: Store
    const catalogs: map<string, Catalog>
    const options: LoaderOptions
    const baseUrl: string
    const timeoutMs: int
    const headers: seq<(string, string)>
    var url: Option<string>
    var verb: Option<string>

    /** The translations `getErrorMessage` reads: the loaded catalogs and the store's language. */
    function CurrentTranslations(): Translations
      reads this, store
    {
      Translations(catalogs, store.settings.language)
    }

    constructor (store: Store, catalogs: map<string, Catalog>, options: LoaderOptions)
      ensures this.store == store && this.catalogs == catalogs && this.options == options
      ensures baseUrl == store.settings.host + "/api" && timeoutMs == 60000
      ensures headers == [("X-AUTH-USER", store.settings.username), ("X-AUTH-TOKEN", store.settings.apiKey)]
      ensures url == None && verb == None
    {
      this.store := store;
      this.catalogs := catalogs;
      this.options := options;
      baseUrl := store.settings.host + "/api";
      timeoutMs := 60000;
      headers := [("X-AUTH-USER", store.settings.username), ("X-AUTH-TOKEN", store.settings.apiKey)];
      url := None;
      verb := None;
    }

    /** The request interceptor: maybe engage the loader, capture url and method, pass the config on. */
    method OnRequest(config: RequestConfig) returns (out: RequestConfig)
      requires store.Valid()
      modifies this, store
      ensures store.Valid()
      ensures out == config
      ensures url == Some(config.url) && verb == Some(Upper(config.verb))
      ensures store.log == old(store.log) + LoaderCommit(options)
      ensures store.loading == (EngagesLoader(options) || old(store.loading))
      ensures store.notifications == old(store.notifications) && store.settings == old(store.settings)
    {
      if EngagesLoader(options) {
        store.CommitLoading(true);
      }
      url := Some(config.url);
      verb := Some(Upper(config.verb));
      out := config;
    }

    /** The response interceptor on success: release the loader, pass the response on. */
    method OnResponse(response: Response) returns (out: Response)
      requires store.Valid()
      modifies store
      ensures store.Valid()
      ensures out == response
      ensures !store.loading && store.log == old(store.log) + [Commit(SetLoading, false)]
      ensures store.notifications == old(store.notifications) && store.settings == old(store.settings)
    {
      store.CommitLoading(false);
      out := response;
    }

    /**
     * The response interceptor on failure: one error notification for the
     * captured url and method, then release the loader; the failure is
     * swallowed and the request resolves to nothing.
     */
    method OnError() returns (out: Option<Response>)
      requires store.Valid() && HasActiveCatalog(CurrentTranslations())
      modifies store
      ensures store.Valid()
      ensures out == None
      ensures var n := Notification("error", ErrorMessage(old(CurrentTranslations()), Shown(url), Shown(verb)), ErrorTimeoutMs);
        store.notifications == old(store.notifications) + [n] &&
        store.log == old(store.log) + [Dispatch(AddNotification, n), Commit(SetLoading, false)]
      ensures !store.loading && store.settings == old(store.settings)
    {
      var text := GetErrorMessage(CurrentTranslations(), Shown(url), Shown(verb));
      var n := Notification("error", text, ErrorTimeoutMs);
      store.DispatchNotification(n);
      store.CommitLoading(false);
      out := None;
    }
  }

  /**
   * One request that fails: the loader is engaged unless the options
   * suppress it; the notification is classified by the url and the
   * upper-cased method of that request; then the loader is released.
   */
  method FailedRequest(c: Client, config: RequestConfig) returns (out: Option<Response>)
    requires c.store.Valid() && HasActiveCatalog(c.CurrentTranslations())
    modifies c, c.store
    ensures c.store.Valid() && out == None && !c.store.loading
    ensures var n := Notification("error", ErrorMessage(old(c.CurrentTranslations()), config.url, Upper(config.verb)), ErrorTimeoutMs);
      c.store.notifications == old(c.store.notifications) + [n] &&
      c.store.log == old(c.store.log) + LoaderCommit(c.options) + [Dispatch(AddNotification, n), Commit(SetLoading, false)]
    ensures c.url == Some(config.url) && c.verb == Some(Upper(config.verb))
    ensures c.store.settings == old(c.store.settings)
  {
    ghost var sentLog := c.store.log + LoaderCommit(c.options);
    var sent := c.OnRequest(config);
    assert c.store.log == sentLog;
    out := c.OnError();
  }

  /**
   * One request that succeeds: the loader is engaged unless the options
   * suppress it, then released, and the response comes back as it was.
   */
  method SucceededRequest(c: Client, config: RequestConfig, response: Response) returns (out: Response)
    requires c.store.Valid()
    modifies c, c.store
    ensures c.store.Valid() && out == response && !c.store.loading
    ensures c.store.notifications == old(c.store.notifications)
    ensures c.store.log == old(c.store.log) + LoaderCommit(c.options) + [Commit(SetLoading, false)]
    ensures c.url == Some(config.url) && c.verb == Some(Upper(config.verb))
    ensures c.store.settings == old(c.store.settings)
  {
    var sent := c.OnRequest(config);
    out := c.OnResponse(response);
  }
  /**
   * Two overlapping requests on one client, the second finishing first: its
   * success releases the loader although the first is still pending, and the
   * first one's failure is then reported with the url and method of the
   * second, which overwrote the captured pair.
   */
  method OverlappingRequests(c: Client, first: RequestConfig, second: RequestConfig, response: Response)
    returns (out: Option<Response>)
    requires c.store.Valid() && HasActiveCatalog(c.CurrentTranslations())
    modifies c, c.store
    ensures c.store.Valid() && out == None && !c.store.loading
    ensures var n := Notification("error", ErrorMessage(old(c.CurrentTranslations()), second.url, Upper(second.verb)), ErrorTimeoutMs);
      c.store.notifications == old(c.store.notifications) + [n] &&
      c.store.log == old(c.store.log)
        + LoaderCommit(c.options) + LoaderCommit(c.options)
        + [Commit(SetLoading, false), Dispatch(AddNotification, n), Commit(SetLoading, false)]
    ensures c.url == Some(second.url) && c.verb == Some(Upper(second.verb))
    ensures c.store.settings == old(c.store.settings)
  {
    ghost var engaged := LoaderCommit(c.options);
    ghost var pending := c.store.log + engaged + engaged + [Commit(SetLoading, false)];
    var sentFirst := c.OnRequest(first);
    var sentSecond := c.OnRequest(second);
    var done := c.OnResponse(response);
    // the first request is still pending, yet the loader is already off
    assert !c.store.loading && c.store.log == pending;
    out := c.OnError();
  }
}
