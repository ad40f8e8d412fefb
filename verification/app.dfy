/**
  The top-level session of the lost-item app: which screen is showing, the
  report form, the search query and results, and the two busy flags of the
  simulated network calls. Each timer-backed action is split into a start
  event and a later completion event; the completion of a search works on
  the query and screen captured when it started.
 */
module App {
  import opened Seqs
  import opened FormState
  import opened Matcher

  /** The screens the app can render. */
  datatype Screen = LandingScreen | FormScreen | SearchScreen | ResultsScreen | SuccessScreen | NoResultsScreen

  /** The screen identifiers the navigation switch recognises. */
  const ScreenNames: set<string> := {"landing", "form", "search", "search-results", "success", "no-results"}

  /** The navigation switch: the screen rendered for a screen identifier;
      any identifier it does not recognise renders the landing screen. */
  function Shown(name: string): (sc: Screen)
    ensures name !in ScreenNames ==> sc == LandingScreen
  {
    if name == "form" then FormScreen
    else if name == "search" then SearchScreen
    else if name == "search-results" then ResultsScreen
    else if name == "success" then SuccessScreen
    else if name == "no-results" then NoResultsScreen
    else LandingScreen
  }

  /** The identifier the app stores to show a screen. */
  function ScreenName(sc: Screen): (name: string)
    ensures name in ScreenNames
    ensures Shown(name) == sc
  {
    match sc
    case LandingScreen => "landing"
    case FormScreen => "form"
    case SearchScreen => "search"
    case ResultsScreen => "search-results"
    case SuccessScreen => "success"
    case NoResultsScreen => "no-results"
  }

  /** Only the identifier "search" shows the search screen. */
  lemma SearchScreenName(name: string)
    requires Shown(name) == SearchScreen
    ensures name == "search"
  {
  }

  /** A recognised identifier is exactly the stored name of the screen it
      shows. */
  lemma ScreenNamesRoundTrip(name: string)
    requires name in ScreenNames
    ensures ScreenName(Shown(name)) == name
  {
  }

  /** The simulated search call: idle, or waiting with the query and the
      screen identifier captured when it started. */
  datatype SearchStatus = Idle | Searching(query: string, screenAtStart: string)

  /** The whole session state. */
  datatype AppState = AppState(
    activeScreen: string,
    form: FormData,
    searchResults: seq<Item>,
    isSubmitting: bool,
    searchQuery: string,
    search: SearchStatus)
  {
    /** The search busy flag. */
    predicate IsSearching() {
      search.Searching?
    }
  }

  /** The state a session starts in; note the form, not the landing page,
      shows first. */
  const Initial := AppState("form", EmptyForm, [], false, "", Idle)

  /** What the user, or an elapsed timer, can do. */
  datatype Event =
    | ApplyNow                               // landing: "submit a report"
    | OpenSearch                             // landing: "start searching"
    | Back                                   // back button of form, results, success, no-results
    | EditField(field: Field, value: string) // form text input changed
    | UploadPhotos(files: seq<File>)         // form file picker
    | SubmitStarted                          // form submitted
    | SubmitCompleted                        // the submit timer fired
    | EditQuery(query: string)               // search input changed
    | SearchStarted                          // search submitted
    | SearchCompleted                        // the search timer fired
  {
    /** Events that only move between screens. */
    predicate IsNavigation() {
      ApplyNow? || OpenSearch? || Back?
    }
  }

  /** Whether the event is offered in this state: the control exists on the
      shown screen and is not disabled; timer events fire exactly when their
      action is under way. */
  predicate Enabled(s: AppState, e: Event) {
    var sc := Shown(s.activeScreen);
    match e
    case ApplyNow => sc == LandingScreen
    case OpenSearch => sc == LandingScreen
    case Back => sc == FormScreen || sc == ResultsScreen || sc == SuccessScreen || sc == NoResultsScreen
    case EditField(_, _) => sc == FormScreen
    case UploadPhotos(_) => sc == FormScreen
    case SubmitStarted => sc == FormScreen && !s.isSubmitting
    case SubmitCompleted => s.isSubmitting
    case EditQuery(_) => sc == SearchScreen
    case SearchStarted => sc == SearchScreen && !s.IsSearching()
    case SearchCompleted => s.IsSearching()
  }

  /** Switches the shown screen and nothing else. */
  function Navigate(s: AppState, target: Screen): (r: AppState)
    ensures Shown(r.activeScreen) == target
    ensures r.(activeScreen := s.activeScreen) == s
  {
    s.(activeScreen := ScreenName(target))
  }

  /** Submitting the form raises the submit busy flag and changes nothing
      else; the handler itself does not look at the form. */
  function StartSubmit(s: AppState): (r: AppState)
    ensures r.isSubmitting
    ensures r.(isSubmitting := s.isSubmitting) == s
  {
    s.(isSubmitting := true)
  }

  /** The submit timer clears the busy flag and shows the success screen,
      whichever screen is showing by then; the form is kept. */
  function CompleteSubmit(s: AppState): (r: AppState)
    ensures !r.isSubmitting && Shown(r.activeScreen) == SuccessScreen
    ensures r.(isSubmitting := s.isSubmitting, activeScreen := s.activeScreen) == s
  {
    s.(isSubmitting := false, activeScreen := ScreenName(SuccessScreen))
  }

  /** Submitting a search raises the search busy flag and captures the
      current query and screen for the timer. */
  function StartSearch(s: AppState): (r: AppState)
    ensures r.IsSearching()
    ensures r.search.query == s.searchQuery && r.search.screenAtStart == s.activeScreen
    ensures r.(search := s.search) == s
  {
    s.(search := Searching(s.searchQuery, s.activeScreen))
  }

  /** The search timer, with the query and screen it captured: it stores the
      catalog items matching that query, clears the busy flag, and moves to
      the results screen unless the captured screen already was it. */
  function CompleteSearch(s: AppState, query: string, screenAtStart: string): (r: AppState)
    ensures !r.IsSearching()
    ensures forall i :: 0 <= i < |r.searchResults| ==>
              r.searchResults[i] in MockResults && Matches(query, r.searchResults[i])
    ensures forall i :: 0 <= i < |MockResults| && Matches(query, MockResults[i]) ==>
              MockResults[i] in r.searchResults
    ensures IsSubsequence(r.searchResults, MockResults)
    ensures screenAtStart != "search-results" ==> r.activeScreen == "search-results"
    ensures screenAtStart == "search-results" ==> r.activeScreen == s.activeScreen
    ensures r.(searchResults := s.searchResults, search := s.search, activeScreen := s.activeScreen) == s
  {
    var found := s.(searchResults := Search(query, MockResults), search := Idle);
    if screenAtStart != "search-results" then found.(activeScreen := "search-results") else found
  }

  /** One event. An event that is not offered leaves the state as it is. */
  function Step(s: AppState, e: Event): (r: AppState)
    ensures !Enabled(s, e) ==> r == s
    // where each navigation leads
    ensures Enabled(s, e) && e.ApplyNow? ==> Shown(r.activeScreen) == FormScreen
    ensures Enabled(s, e) && e.OpenSearch? ==> Shown(r.activeScreen) == SearchScreen
    ensures Enabled(s, e) && e.Back? ==> Shown(r.activeScreen) == LandingScreen
    ensures e.IsNavigation() ==> r.(activeScreen := s.activeScreen) == s
    // the form changes only through its own inputs, and as they say
    ensures r.form != s.form ==> e.EditField? || e.UploadPhotos?
    ensures Enabled(s, e) && e.EditField? ==> Get(r.form, e.field) == e.value
    ensures e.EditField? ==> forall f :: f != e.field ==> Get(r.form, f) == Get(s.form, f)
    ensures !e.UploadPhotos? ==> r.form.photos == s.form.photos
    ensures Enabled(s, e) && e.UploadPhotos? ==> r.form == AddPhotos(s.form, e.files)
    // the search box
    ensures Enabled(s, e) && e.EditQuery? ==> r == s.(searchQuery := e.query)
    // the results change only when a search completes
    ensures r.searchResults != s.searchResults ==> e.SearchCompleted?
    // the busy flags
    ensures Enabled(s, e) && e.SubmitStarted? ==> r.isSubmitting && r.form == s.form
    ensures e.SubmitStarted? && s.isSubmitting ==> r == s
    ensures Enabled(s, e) && e.SubmitCompleted? ==>
              !r.isSubmitting && Shown(r.activeScreen) == SuccessScreen && r.form == s.form
    ensures Enabled(s, e) && e.SearchStarted? ==> r.IsSearching() && r.search.query == s.searchQuery
    ensures e.SearchStarted? && s.IsSearching() ==> r == s
    ensures Enabled(s, e) && e.SearchCompleted? ==>
              !r.IsSearching() && r.searchResults == Search(s.search.query, MockResults)
    ensures Enabled(s, e) && e.SearchCompleted? && s.search.screenAtStart != "search-results" ==>
              r.activeScreen == "search-results"
    ensures Enabled(s, e) && e.SearchCompleted? && s.search.screenAtStart == "search-results" ==>
              r.activeScreen == s.activeScreen
    ensures Enabled(s, e) && e.SearchStarted? ==> r.search == Searching(s.searchQuery, s.activeScreen)
    // a running search keeps what it captured until it completes
    ensures !e.SearchStarted? && !e.SearchCompleted? ==> r.search == s.search
    // what each event leaves alone
    ensures !e.IsNavigation() && !e.SubmitCompleted? && !e.SearchCompleted? ==> r.activeScreen == s.activeScreen
    ensures !e.EditQuery? ==> r.searchQuery == s.searchQuery
    ensures !e.SubmitStarted? && !e.SubmitCompleted? ==> r.isSubmitting == s.isSubmitting
  {
    if !Enabled(s, e) then s
    else match e
      case ApplyNow => Navigate(s, FormScreen)
      case OpenSearch => Navigate(s, SearchScreen)
      case Back => Navigate(s, LandingScreen)
      case EditField(field, value) => s.(form := SetField(s.form, field, value))
      case UploadPhotos(files) => s.(form := AddPhotos(s.form, files))
      case SubmitStarted => StartSubmit(s)
      case SubmitCompleted => CompleteSubmit(s)
      case EditQuery(query) => s.(searchQuery := query)
      case SearchStarted => StartSearch(s)
      case SearchCompleted => CompleteSearch(s, s.search.query, s.search.screenAtStart)
  }

  /** A sequence of events, applied in order. */
  function Run(s: AppState, events: seq<Event>): AppState
    decreases |events|
  {
    if events == [] then s else Run(Step(s, events[0]), events[1..])
  }

  /** What holds in every state a session can reach: the shown screen has a
      recognised identifier, every photo is within the size limit, a running
      search was started from the search screen, and the stored results are
      items of the catalog in catalog order. */
  ghost predicate Valid(s: AppState) {
    && s.activeScreen in ScreenNames
    && All(FitsLimit, s.form.photos)
    && (s.IsSearching() ==> s.search.screenAtStart == "search")
    && IsSubsequence(s.searchResults, MockResults)
  }

  /** The session starts in a valid state, on the form screen, with an empty
      form, no results, an empty search box and neither action under way. */
  lemma InitialValid()
    ensures Valid(Initial)
    ensures Shown(Initial.activeScreen) == FormScreen
    ensures Initial.form == EmptyForm && Get(Initial.form, Description) == "" && Initial.form.photos == []
    ensures Initial.searchResults == [] && Initial.searchQuery == ""
    ensures !Initial.isSubmitting && !Initial.IsSearching()
  {
  }

  /** Every event keeps the state valid. */
  lemma StepPreservesValid(s: AppState, e: Event)
    requires Valid(s)
    ensures Valid(Step(s, e))
  {
  }

  /** Any sequence of events keeps the state valid. */
  lemma {:induction false} RunPreservesValid(s: AppState, events: seq<Event>)
    requires Valid(s)
    ensures Valid(Run(s, events))
    decreases |events|
  {
    if events != [] {
      StepPreservesValid(s, events[0]);
      RunPreservesValid(Step(s, events[0]), events[1..]);
    }
  }

  /** Every reachable state is valid. */
  lemma ReachableValid(events: seq<Event>)
    ensures Valid(Run(Initial, events))
  {
    InitialValid();
    RunPreservesValid(Initial, events);
  }

  /** In a reachable state, a running search always ends on the results
      screen with the matches of the query it holds; `CapturedQueryDecides`
      shows that query is the one typed when the search started. */
  lemma SearchEndsOnResults(events: seq<Event>)
    requires Run(Initial, events).IsSearching()
    ensures var s := Run(Initial, events);
            var r := Step(s, SearchCompleted);
            && Shown(r.activeScreen) == ResultsScreen
            && r.searchResults == Search(s.search.query, MockResults)
            && !r.IsSearching()
  {
    ReachableValid(events);
  }

  /** Leaving the form while a submit is under way does not cancel it: its
      completion still shows the success screen. */
  lemma SubmitOutlivesNavigation()
    ensures Run(Initial, [SubmitStarted, Back, SubmitCompleted]).activeScreen == "success"
  {
    var s1 := Step(Initial, SubmitStarted);
    var s2 := Step(s1, Back);
    var s3 := Step(s2, SubmitCompleted);
    assert Run(s3, []) == s3;
  }

  /** Running two batches of events one after the other is running them
      together. */
  lemma {:induction false} RunAppend(s: AppState, a: seq<Event>, b: seq<Event>)
    ensures Run(s, a + b) == Run(Run(s, a), b)
    decreases |a|
  {
    if a == [] {
      assert a + b == b;
    } else {
      assert (a + b)[1..] == a[1..] + b;
      RunAppend(Step(s, a[0]), a[1..], b);
    }
  }

  /** Events other than a search's completion leave a running search, and
      the query and screen it captured, as they are: starting another search
      is not offered while one runs. */
  lemma {:induction false} CaptureSurvives(s: AppState, mid: seq<Event>)
    requires s.IsSearching()
    requires forall i :: 0 <= i < |mid| ==> !mid[i].SearchCompleted?
    ensures Run(s, mid).search == s.search
    decreases |mid|
  {
    if mid != [] {
      CaptureSurvives(Step(s, mid[0]), mid[1..]);
    }
  }

  /** Whatever happens between a search's start and its completion, the
      completion shows on the results screen the matches of the query typed
      when the search started. */
  lemma CapturedQueryDecides(s: AppState, mid: seq<Event>)
    requires Enabled(s, SearchStarted)
    requires forall i :: 0 <= i < |mid| ==> !mid[i].SearchCompleted?
    ensures var r := Step(Run(Step(s, SearchStarted), mid), SearchCompleted);
            && r.searchResults == Search(s.searchQuery, MockResults)
            && r.activeScreen == "search-results"
            && !r.IsSearching()
  {
    SearchScreenName(s.activeScreen);
    var started := Step(s, SearchStarted);
    assert started.search == Searching(s.searchQuery, "search");
    CaptureSurvives(started, mid);
    var m := Run(started, mid);
    assert m.search == Searching(s.searchQuery, "search");
    assert Enabled(m, SearchCompleted);
  }

  /** Going back to the landing page and choosing to file a report returns
      to the session's first state. */
  lemma ReturnToForm()
    ensures Run(Initial, [Back, ApplyNow]) == Initial
  {
    var s1 := Step(Step(Initial, Back), ApplyNow);
    assert Run(s1, []) == s1;
  }

  /** The report filled in by the scenario below, with its submit under way. */
  const Filed := Initial.(form := FormData("кошелек", "2023-09-15", "Пушкинская", []), isSubmitting := true)

  /** Filling in the three text fields and submitting. */
  lemma FillReport()
    ensures Run(Initial, [EditField(Description, "кошелек"), EditField(Date, "2023-09-15"),
                          EditField(Location, "Пушкинская"), SubmitStarted]) == Filed
  {
    var s1 := Step(Initial, EditField(Description, "кошелек"));
    var s2 := Step(s1, EditField(Date, "2023-09-15"));
    var s3 := Step(s2, EditField(Location, "Пушкинская"));
    var s4 := Step(s3, SubmitStarted);
    assert Run(s4, []) == s4;
  }

  /** Filing a report from the landing page: going back, choosing to file a
      report, filling the form in and submitting leaves the submit under way
      with the report on the form. */
  lemma ReportScenario()
    ensures Run(Initial, [Back, ApplyNow,
                          EditField(Description, "кошелек"),
                          EditField(Date, "2023-09-15"),
                          EditField(Location, "Пушкинская"),
                          SubmitStarted]) == Filed
  {
    var open := [Back, ApplyNow];
    var fill := [EditField(Description, "кошелек"), EditField(Date, "2023-09-15"),
                 EditField(Location, "Пушкинская"), SubmitStarted];
    assert open + fill == [Back, ApplyNow,
                           EditField(Description, "кошелек"),
                           EditField(Date, "2023-09-15"),
                           EditField(Location, "Пушкинская"),
                           SubmitStarted];
    RunAppend(Initial, open, fill);
    ReturnToForm();
    FillReport();
  }

  /** The submit of the filed report completes on the success screen, with
      the report kept. */
  lemma ReportSucceeds()
    ensures Step(Filed, SubmitCompleted) == Filed.(isSubmitting := false, activeScreen := "success")
  {
  }

  /** Opening the search from the landing page and searching for "Курская". */
  lemma StartStationSearch()
    ensures Run(Initial, [Back, OpenSearch, EditQuery("Курская"), SearchStarted]) ==
            AppState("search", EmptyForm, [], false, "Курская", Searching("Курская", "search"))
  {
    var s1 := Step(Step(Initial, Back), OpenSearch);
    var s2 := Step(s1, EditQuery("Курская"));
    var s3 := Step(s2, SearchStarted);
    assert Run(s3, []) == s3;
  }

  /** Retyping the query, then the search for "Курская" completes. */
  lemma FinishStationSearch()
    ensures var r := Run(AppState("search", EmptyForm, [], false, "Курская", Searching("Курская", "search")),
                         [EditQuery("zzz"), SearchCompleted]);
            && r.searchResults == Search("Курская", MockResults)
            && r.activeScreen == "search-results"
            && r.searchQuery == "zzz"
  {
    var started := AppState("search", EmptyForm, [], false, "Курская", Searching("Курская", "search"));
    var s4 := Step(started, EditQuery("zzz"));
    var s5 := Step(s4, SearchCompleted);
    assert Run(s5, []) == s5;
  }

  /** A search uses the query typed when it started: editing the query while
      it runs does not change its results. */
  lemma SearchUsesCapturedQuery()
    ensures var r := Run(Initial, [Back, OpenSearch, EditQuery("Курская"), SearchStarted,
                                   EditQuery("zzz"), SearchCompleted]);
            && r.searchResults == [Umbrella]
            && r.activeScreen == "search-results"
            && r.searchQuery == "zzz"
  {
    var start := [Back, OpenSearch, EditQuery("Курская"), SearchStarted];
    var rest := [EditQuery("zzz"), SearchCompleted];
    assert start + rest == [Back, OpenSearch, EditQuery("Курская"), SearchStarted,
                            EditQuery("zzz"), SearchCompleted];
    RunAppend(Initial, start, rest);
    StartStationSearch();
    FinishStationSearch();
    MockSearchExamples();
  }
}
