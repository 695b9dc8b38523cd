/**
 * The picker dialog: when it opens it asks for an access token, creates a
 * picker session, opens Google's picker window, waits for the selection and
 * hands it over; when it closes it resets. Its state is the three React
 * state variables plus the windows it has opened and the selections it has
 * handed over.
 */
module PickerDialog {
  import opened Wrappers
  import opened Strings
  import opened Picker

  const AutoClose: string := "/autoclose"
  const RequestingMessage: string := "Requesting Google Photos Picker..."
  const MissingSessionFields: string := "Picker session response missing id or pickerUri."

  /** `uri.replace(/\/$/, '')`: one trailing slash removed. */
  function StripTrailingSlash(uri: string): (r: string)
    ensures uri != "" && uri[|uri| - 1] == '/' ==> r == uri[..|uri| - 1]
    ensures uri == "" || uri[|uri| - 1] != '/' ==> r == uri
  {
    if uri != "" && uri[|uri| - 1] == '/' then uri[..|uri| - 1] else uri
  }

  /** The URL the picker window is opened at: the session's URI, made to close itself when done. */
  function PickerUrl(uri: string): (url: string)
    ensures EndsWith(url, AutoClose)
    ensures EndsWith(uri, AutoClose) ==> url == uri
    ensures !EndsWith(uri, AutoClose) ==> url == StripTrailingSlash(uri) + AutoClose
  {
    if EndsWith(uri, AutoClose) then uri else StripTrailingSlash(uri) + AutoClose
  }

  /** At most one character, a trailing slash, is dropped from the URI before the suffix. */
  lemma PickerUrlKeepsUri(uri: string)
    requires !EndsWith(uri, AutoClose)
    ensures var url := PickerUrl(uri);
      || url == uri + AutoClose
      || (uri != "" && uri[|uri| - 1] == '/' && url == uri[..|uri| - 1] + AutoClose)
    ensures StartsWith(uri, PickerUrl(uri)[..|PickerUrl(uri)| - |AutoClose|])
  {
  }

  /** Normalising twice is normalising once. */
  lemma PickerUrlIdempotent(uri: string)
    ensures PickerUrl(PickerUrl(uri)) == PickerUrl(uri)
  {
  }

  /** The session check: both `id` and `pickerUri` must be present and non-empty. */
  function CheckSession(session: PickingSession): (r: Result<(string, string)>)
    ensures r.Ok? <==> Truthy(session.id) && Truthy(session.pickerUri)
    ensures r.Err? ==> r.error == MissingSessionFields
    ensures r.Ok? ==> r.value == (session.id.value, session.pickerUri.value) && r.value.0 != "" && r.value.1 != ""
  {
    if !Truthy(session.id) || !Truthy(session.pickerUri) then Err(MissingSessionFields)
    else Ok((session.id.value, session.pickerUri.value))
  }

  datatype Status = Idle | Creating | Polling | Error

  /** The dialog's state: status, message and error, the picker windows opened and the selections handed to `onPicked`. */
  datatype DialogView = DialogView(
    status: Status,
    message: string,
    error: Option<string>,
    windows: seq<string>,
    picked: seq<seq<MediaItem>>)

  /** What the user and the network answer during one launch. */
  datatype LaunchInputs = LaunchInputs(
    apiKey: Option<string>,
    token: Result<string>,
    created: Result<PickingSession>,
    startedAt: int,
    polls: seq<Poll>,
    pages: seq<Result<MediaItemsListResponse>>,
    cancelled: bool)

  /** The session created, when the token and the creation request succeed and the session passes the check. */
  function CreatedSession(inputs: LaunchInputs): Result<(string, string)>
  {
    if inputs.token.Err? then Err(inputs.token.error)
    else
      var created := Requested(inputs.apiKey, inputs.created);
      if created.Err? then Err(created.error) else CheckSession(created.value)
  }

  /** The answers given are enough for the launch to finish. */
  predicate Finishes(inputs: LaunchInputs)
  {
    CreatedSession(inputs).Ok? ==>
      var w := WaitFrom(inputs.apiKey, inputs.polls, 0, InitialDeadline(inputs.startedAt, None));
      w.Some? && (w.value.Selected? ==> Ends(inputs.apiKey, inputs.pages))
  }

  /** The `catch`: unless cancelled, show the error. */
  function Fail(v: DialogView, message: string, cancelled: bool): DialogView
  {
    if cancelled then v else v.(status := Error, error := Some(message))
  }

  /** The state a launch leaves. `cancelled` says whether the effect was cleaned up before the awaited steps settled. */
  function Launched(v: DialogView, inputs: LaunchInputs): DialogView
    requires Finishes(inputs)
  {
    var creating := v.(status := Creating, message := RequestingMessage);
    match CreatedSession(inputs)
    case Err(e) => Fail(creating, e, inputs.cancelled)
    case Ok(session) =>
      var polling := creating.(windows := creating.windows + [PickerUrl(session.1)], status := Polling);
      var w := WaitFrom(inputs.apiKey, inputs.polls, 0, InitialDeadline(inputs.startedAt, None)).value;
      var waited := if !inputs.cancelled && w.fetches > 0 then polling.(message := ProgressMessage) else polling;
      match WaitResult(inputs.apiKey, w, inputs.pages)
      case Err(e) => Fail(waited, e, inputs.cancelled)
      case Ok(items) => if inputs.cancelled then waited else waited.(picked := waited.picked + [items])
  }

  class PickerDialogState {
    var status: Status
    var message: string
    var error: Option<string>
    var windows: seq<string>
    var picked: seq<seq<MediaItem>>

    function View(): DialogView
      reads this
    {
      DialogView(status, message, error, windows, picked)
    }

    constructor()
      ensures View() == DialogView(Idle, "", None, [], [])
    {
      status, message, error := Idle, "", None;
      windows, picked := [], [];
    }

    /** The effect while the dialog is closed: everything shown is reset. */
    method Close()
      modifies this
      ensures status == Idle && message == "" && error.None?
      ensures windows == old(windows) && picked == old(picked)
    {
      status := Idle;
      message := "";
      error := None;
    }

    /** The effect when the dialog opens: `launchPicker` run to completion. */
    method Launch(inputs: LaunchInputs)
      requires Finishes(inputs)
      modifies this
      ensures View() == Launched(old(View()), inputs)
    {
      status := Creating;
      message := RequestingMessage;
      if inputs.token.Err? {
        if !inputs.cancelled {
          status, error := Error, Some(inputs.token.error);
        }
        return;
      }
      var created := Requested(inputs.apiKey, inputs.created);
      if created.Err? {
        if !inputs.cancelled {
          status, error := Error, Some(created.error);
        }
        return;
      }
      var session := CheckSession(created.value);
      if session.Err? {
        if !inputs.cancelled {
          status, error := Error, Some(session.error);
        }
        return;
      }
      var (sessionId, pickerUri) := session.value;
      windows := windows + [PickerUrl(pickerUri)];
      status := Polling;
      var items, progress, slept := WaitForMediaItems(inputs.apiKey, sessionId, None, inputs.startedAt, inputs.polls, inputs.pages);
      if !inputs.cancelled && |progress| > 0 {
        message := progress[|progress| - 1];
      }
      if items.Err? {
        if !inputs.cancelled {
          status, error := Error, Some(items.error);
        }
        return;
      }
      if !inputs.cancelled {
        picked := picked + [items.value];
      }
    }
  }

  /**
   * A launch that fails before the session passes its check opens no window
   * and hands over nothing; unless cancelled it ends in `error` with the
   * failure's message.
   */
  lemma NoWindowWithoutSession(v: DialogView, inputs: LaunchInputs)
    requires Finishes(inputs)
    requires CreatedSession(inputs).Err?
    ensures var after := Launched(v, inputs);
      && after.windows == v.windows && after.picked == v.picked
      && (!inputs.cancelled ==> after.status == Error && after.error == Some(CreatedSession(inputs).error))
      && (inputs.cancelled ==> after.status == Creating && after.error == v.error)
  {
  }

  /** A session without an id or a picker URI is rejected with its own message. */
  lemma IncompleteSessionRejected(v: DialogView, inputs: LaunchInputs)
    requires Finishes(inputs) && !inputs.cancelled
    requires inputs.token.Ok? && Requested(inputs.apiKey, inputs.created).Ok?
    requires !Truthy(inputs.created.value.id) || !Truthy(inputs.created.value.pickerUri)
    ensures Launched(v, inputs).status == Error
    ensures Launched(v, inputs).error == Some(MissingSessionFields)
    ensures Launched(v, inputs).windows == v.windows
  {
  }

  /**
   * Once the session passes, exactly one window is opened, at a URL ending
   * in `/autoclose`, and the status moves on to `polling`; a listing that
   * succeeds is handed over once unless cancelled, and leaves the status at
   * `polling`.
   */
  lemma SessionOpensOneWindow(v: DialogView, inputs: LaunchInputs)
    requires Finishes(inputs)
    requires CreatedSession(inputs).Ok?
    ensures var after := Launched(v, inputs);
            var w := WaitFrom(inputs.apiKey, inputs.polls, 0, InitialDeadline(inputs.startedAt, None)).value;
            var result := WaitResult(inputs.apiKey, w, inputs.pages);
      && |after.windows| == |v.windows| + 1 && after.windows[..|v.windows|] == v.windows
      && EndsWith(after.windows[|v.windows|], AutoClose)
      && (result.Ok? ==> after.status == Polling && after.error == v.error)
      && (result.Ok? && !inputs.cancelled ==> after.picked == v.picked + [result.value])
      && (result.Err? && !inputs.cancelled ==> after.status == Error && after.error == Some(result.error) && after.picked == v.picked)
      && (inputs.cancelled ==> after.picked == v.picked && after.error == v.error)
  {
    var after := Launched(v, inputs);
    assert after.windows[..|v.windows|] == v.windows;
  }

  /** Whatever happens, a launch leaves the dialog creating, polling or showing an error, never idle. */
  lemma LaunchNeverIdle(v: DialogView, inputs: LaunchInputs)
    requires Finishes(inputs)
    ensures Launched(v, inputs).status in {Creating, Polling, Error}
    ensures !inputs.cancelled ==> Launched(v, inputs).status != Creating
    ensures Launched(v, inputs).status == Error ==> !inputs.cancelled && Launched(v, inputs).error.Some?
  {
  }
}
