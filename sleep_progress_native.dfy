/**
 * The mobile sleep-progress screen (baby-sleep-native-fixed/app/sleep-progress.tsx).
 * It computes the same factor toggle, data flags, rings and windows as the
 * web page, so it uses those definitions; what is its own is the screen
 * state and the order in which the loading view, the error view and the
 * content take precedence.
 */
module SleepProgressNative {
  import opened Wrappers
  import opened SleepProgress

  /** What the screen renders under its header. */
  datatype ScreenView = Spinner | ErrorText(message: string) | Content(dashboard: Dashboard)

  class Screen {
    var loading: bool
    var error: string
    var summary: Option<Summary>
    var selectedFactors: seq<string>

    constructor()
      ensures loading && error == [] && summary == None && selectedFactors == []
    {
      loading := true;
      error := [];
      summary := None;
      selectedFactors := [];
    }

    /** Loading wins over an error, and an error wins over the content. */
    function View(): (v: ScreenView)
      reads this
      ensures v.Spinner? <==> loading
      ensures v.ErrorText? <==> !loading && error != []
      ensures v.ErrorText? ==> v.message == error
      ensures v.Content? ==> v.dashboard == DashboardOf(summary)
    {
      if loading then Spinner
      else if error != [] then ErrorText(error)
      else Content(DashboardOf(summary))
    }

    /** loadData: the summary or the error message; the spinner is gone afterwards either way. */
    method LoadData(reply: SummaryReply)
      modifies this
      ensures !loading && selectedFactors == old(selectedFactors)
      ensures reply.Loaded? ==> summary == Some(reply.summary) && error == [] && View() == Content(DashboardOf(summary))
      ensures reply.LoadFailed? ==> summary == old(summary) && View() == ErrorText(LoadError(reply.message))
    {
      loading := true;
      error := [];
      match reply {
        case Loaded(data) => summary := Some(data);
        case LoadFailed(message) => error := LoadError(message);
      }
      loading := false;
    }

    /** loadTodayFactors: today's stored entry, when there is one, replaces the selection. */
    method LoadTodayFactors(today: string, reply: FactorsReply)
      modifies this
      ensures StoredFactors(reply, today).Some? ==> selectedFactors == StoredFactors(reply, today).value
      ensures StoredFactors(reply, today).None? ==> selectedFactors == old(selectedFactors)
      ensures loading == old(loading) && error == old(error) && summary == old(summary)
    {
      var stored := StoredFactors(reply, today);
      if stored.Some? {
        selectedFactors := stored.value;
      }
    }

    /**
     * handleFactorToggle: the selection is updated before the save, so it
     * stays updated when the save fails; only the summary waits for success.
     */
    method HandleFactorToggle(f: string, today: string, reply: SaveReply) returns (request: FactorsRequest)
      modifies this
      ensures selectedFactors == Toggle(old(selectedFactors), f)
      ensures request == FactorsRequest(today, selectedFactors)
      ensures reply.Saved? ==> summary == Some(reply.refreshed)
      ensures reply.SaveFailed? ==> summary == old(summary)
      ensures loading == old(loading) && error == old(error)
    {
      var next := Toggle(selectedFactors, f);
      selectedFactors := next;
      request := FactorsRequest(today, next);
      if reply.Saved? {
        summary := Some(reply.refreshed);
      }
    }
  }
}
