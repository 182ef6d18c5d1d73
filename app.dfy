/** The state `EmojiDescriberApp` keeps and the actions that change it.

    The widgets are reduced to the values they hold: the input line's text,
    the list widget's rows and its selected row, the results panel's text,
    the status bar's message, whether the detail panel has been revealed,
    and the enabled flags of the controls. A request to the language model is
    one atomic start (`RunTask`) followed by one completion, either
    `OnTaskFinished` or `OnTaskError`; `busy` says that a request is in flight. */
module App {
  import opened Wrappers
  import opened Text
  import opened Items
  import opened Prompts
  import ResponseFormat

  /** What a started task carries: the prompt handed to the worker, and the
      heading its reply will be shown under. */
  datatype Request = Request(prompt: string, prefix: string)

  /** What the status bar says. */
  datatype Status =
    | Ready             // the initial message, and after "Clear All"
    | EmptyInput        // "Identify" on an empty input line
    | NoneFound         // no character of the input has a name
    | Found(count: nat) // how many characters were identified
    | Working           // a request is in flight
    | Loaded            // the reply arrived
    | ApiError          // the request failed

  /** The text the status bar shows for a status. */
  function Message(s: Status): string
  {
    match s
    case Ready => "Ready. Enter emojis and click 'Identify'."
    case EmptyInput => "Input is empty."
    case NoneFound => "No recognizable characters found."
    case Found(n) => "Found " + NatToString(n) + " character(s)."
    case Working => "Getting description from Gemini API..."
    case Loaded => "Description loaded successfully."
    case ApiError => "API Error. Please restart."
  }

  /** The count can be read back from the message that reports it. */
  lemma FoundMessageCount(n: nat)
    ensures var m := Message(Found(n));
            |m| >= 20 && DecimalValue(m[6..|m| - 14]) == n
  {
    var m := Message(Found(n));
    assert m[6..|m| - 14] == NatToString(n);
    NatToStringRoundTrip(n);
  }

  /** The text in an error message that means the stored key was rejected. */
  const InvalidKeyMarker := "API key not valid"

  class EmojiDescriber {
    var input: string                 // the text of the input line
    var items: seq<Item>              // identified_emojis
    var rows: seq<string>             // the rows of the list widget
    var selection: Option<nat>        // the selected row (single selection)
    var resultText: string            // the results panel
    var status: Status                // the status bar, showing Message(status)
    var revealed: bool                // initial_identification_done: detail panel shown
    var busy: bool                    // a request is in flight
    var request: Option<Request>      // the request in flight
    var keyStored: bool               // the configuration file with the API key exists
    var entryEnabled: bool            // input line, Identify button and list widget
    var describeOneEnabled: bool      // "Describe Selected"
    var describeAllEnabled: bool      // "Describe All"
    var clearEnabled: bool            // "Clear All"

    /** The two lists are index-aligned, a selection names an existing row,
        a request is in flight exactly while busy, and the input controls are
        enabled exactly while idle. */
    ghost predicate Valid()
      reads this`items, this`rows, this`selection, this`busy, this`request, this`entryEnabled
    {
      Aligned(items, rows)
      && (selection.Some? ==> selection.value < |items|)
      && busy == request.Some?
      && entryEnabled == !busy
    }

    /** The rule of `update_button_states`: "Describe Selected" needs an idle
        application and a selected row, "Describe All" an idle application and
        a non-empty list, "Clear All" an idle application. */
    predicate ButtonsFollowState()
      reads this`describeOneEnabled, this`describeAllEnabled, this`clearEnabled,
            this`busy, this`selection, this`rows
    {
      describeOneEnabled == (!busy && selection.Some?)
      && describeAllEnabled == (!busy && |rows| > 0)
      && clearEnabled == !busy
    }

    /** The window as `init_ui` leaves it (after a key has been obtained). */
    constructor ()
      ensures Valid() && ButtonsFollowState()
      ensures input == [] && items == [] && rows == [] && selection == None && resultText == []
      ensures !revealed && !busy && keyStored && status == Ready
    {
      input, items, rows, selection := [], [], [], None;
      resultText, status := [], Ready;
      revealed, busy, request, keyStored := false, false, None, true;
      entryEnabled, describeOneEnabled, describeAllEnabled, clearEnabled := true, true, true, true;
      new;
      ClearAll();
    }

    /** `update_button_states`. */
    method UpdateButtonStates()
      modifies this`describeOneEnabled, this`describeAllEnabled, this`clearEnabled
      ensures ButtonsFollowState()
    {
      describeOneEnabled := !busy && selection.Some?;
      describeAllEnabled := !busy && |rows| > 0;
      clearEnabled := !busy;
    }

    /** `set_controls_enabled`: the input controls take `enabled`; the three
        buttons follow the rule, and are all off when `enabled` is false. */
    method SetControlsEnabled(enabled: bool)
      modifies this`entryEnabled, this`describeOneEnabled, this`describeAllEnabled, this`clearEnabled
      ensures entryEnabled == enabled
      ensures describeOneEnabled == (enabled && !busy && selection.Some?)
      ensures describeAllEnabled == (enabled && !busy && |rows| > 0)
      ensures clearEnabled == (enabled && !busy)
    {
      entryEnabled := enabled;
      UpdateButtonStates();
      if !enabled {
        describeOneEnabled, describeAllEnabled, clearEnabled := false, false, false;
      }
    }

    /** The user edits the input line. */
    method SetInput(text: string)
      modifies this`input
      ensures input == text
    {
      input := text;
    }

    /** The user selects a row, or clears the selection; the list widget's
        selection signal runs `update_button_states`. */
    method Select(row: Option<nat>)
      requires Valid()
      requires row.Some? ==> row.value < |items|
      modifies this`selection, this`describeOneEnabled, this`describeAllEnabled, this`clearEnabled
      ensures Valid() && ButtonsFollowState()
      ensures selection == row
    {
      selection := row;
      UpdateButtonStates();
    }

    /** `identify_emojis_action`: empties the list and the results, then keeps
        every character of the input that has a name, in order. Emptying the
        list first drops its selection, if there is one; the list's selection
        signal then runs `update_button_states` while the old rows are still
        counted. An empty input only sets its status and returns before the
        buttons are updated again. */
    method Identify(nameOf: NameTable)
      requires Valid()
      modifies this`items, this`rows, this`selection, this`resultText, this`status, this`revealed,
               this`describeOneEnabled, this`describeAllEnabled, this`clearEnabled
      ensures Valid()
      ensures items == Classify(input, nameOf)
      ensures selection == None && resultText == []
      ensures revealed == (old(revealed) || items != [])
      ensures input == [] ==> status == EmptyInput
      ensures input == [] && old(selection).Some? ==>
                !describeOneEnabled && describeAllEnabled == (!busy && old(rows) != [])
                && clearEnabled == !busy
      ensures input == [] && old(selection).None? ==>
                describeOneEnabled == old(describeOneEnabled)
                && describeAllEnabled == old(describeAllEnabled)
                && clearEnabled == old(clearEnabled)
      ensures input != [] ==> ButtonsFollowState()
      ensures input != [] ==> status == (if items == [] then NoneFound else Found(|items|))
    {
      var text := input;
      if selection.Some? {
        selection := None;
        UpdateButtonStates();
      }
      rows, resultText, items, selection := [], [], [], None;
      if text == [] {
        status := EmptyInput;
      } else {
        AppendNamed(text, nameOf);
        ReportIdentified();
      }
    }

    /** The end of `identify_emojis_action`: the first non-empty result
        reveals the detail panel, the status gives the count, and the buttons
        are updated. */
    method ReportIdentified()
      modifies this`revealed, this`status, this`describeOneEnabled, this`describeAllEnabled, this`clearEnabled
      ensures ButtonsFollowState()
      ensures revealed == (old(revealed) || items != [])
      ensures status == if items == [] then NoneFound else Found(|items|)
    {
      if items != [] {
        if !revealed {
          revealed := true;
        }
        status := Found(|items|);
      } else {
        status := NoneFound;
      }
      UpdateButtonStates();
    }

    /** The loop of `identify_emojis_action`, run on the emptied lists: each
        character of `text` that has a name is appended to the items, and its
        row to the list widget; a character whose lookup fails is passed over. */
    method AppendNamed(text: string, nameOf: NameTable)
      requires items == [] && rows == []
      modifies this`items, this`rows
      ensures Aligned(items, rows)
      ensures items == Classify(text, nameOf)
    {
      var i := 0;
      while i < |text|
        invariant 0 <= i <= |text|
        invariant items == Classify(text[..i], nameOf)
        invariant Aligned(items, rows)
      {
        var c := text[i];
        ClassifySnoc(text[..i], c, nameOf);
        assert text[..i + 1] == text[..i] + [c];
        match nameOf(c) {
          case Some(n) =>
            DisplayLinesSnoc(items, Item(c, n));
            items := items + [Item(c, n)];
            rows := rows + [DisplayLine(Item(c, n))];
          case None =>
        }
        i := i + 1;
      }
      assert text[..i] == text;
    }

    /** `delete_selected_item`: the selected row leaves both lists at the same
        index. With single selection the loop of `delete_selected_item` runs at
        most once. */
    method DeleteSelected()
      requires Valid()
      modifies this`items, this`rows, this`selection,
               this`describeOneEnabled, this`describeAllEnabled, this`clearEnabled
      ensures Valid() && ButtonsFollowState()
      ensures selection == None
      ensures old(selection).None? ==> items == old(items) && rows == old(rows)
      ensures old(selection).Some? ==>
                items == RemoveAt(old(items), old(selection).value)
                && rows == RemoveAt(old(rows), old(selection).value)
    {
      if selection.Some? {
        var row := selection.value;
        RemoveKeepsAligned(items, row);
        rows := RemoveAt(rows, row);
        items := RemoveAt(items, row);
        selection := None;
      }
      UpdateButtonStates();
    }

    /** `clear_all`: everything back to the initial state, panel hidden again. */
    method ClearAll()
      requires Valid()
      modifies this`input, this`items, this`rows, this`selection, this`resultText, this`revealed,
               this`status, this`describeOneEnabled, this`describeAllEnabled, this`clearEnabled
      ensures Valid() && ButtonsFollowState()
      ensures input == [] && items == [] && rows == [] && selection == None && resultText == []
      ensures !revealed && status == Ready
    {
      input := [];
      rows := [];
      resultText := [];
      items := [];
      selection := None;
      revealed := false;
      status := Ready;
      UpdateButtonStates();
    }

    /** `run_gemini_task`: every control goes off and the request is in flight. */
    method RunTask(prompt: string, prefix: string)
      requires Valid()
      modifies this`busy, this`request, this`status,
               this`entryEnabled, this`describeOneEnabled, this`describeAllEnabled, this`clearEnabled
      ensures Valid() && ButtonsFollowState()
      ensures busy && request == Some(Request(prompt, prefix)) && status == Working
      ensures !entryEnabled && !describeOneEnabled && !describeAllEnabled && !clearEnabled
    {
      SetControlsEnabled(false);
      busy := true;
      request := Some(Request(prompt, prefix));
      status := Working;
    }

    /** `describe_one_action`: without a selection nothing happens; otherwise
        the single prompt for the selected item is sent. */
    method DescribeOne()
      requires Valid()
      modifies this`busy, this`request, this`status,
               this`entryEnabled, this`describeOneEnabled, this`describeAllEnabled, this`clearEnabled
      ensures Valid()
      ensures old(selection).None? ==> unchanged(this)
      ensures old(selection).Some? ==>
                var it := items[selection.value];
                busy && request == Some(Request(SinglePrompt(it), SinglePrefix(it)))
                && status == Working && ButtonsFollowState() && !entryEnabled
    {
      if selection.None? {
        return;
      }
      var it := items[selection.value];
      RunTask(SinglePrompt(it), SinglePrefix(it));
    }

    /** `describe_all_action`: with no items nothing happens; otherwise the
        batch prompt over all items is sent. */
    method DescribeAll()
      requires Valid()
      modifies this`busy, this`request, this`status,
               this`entryEnabled, this`describeOneEnabled, this`describeAllEnabled, this`clearEnabled
      ensures Valid()
      ensures items == [] ==> unchanged(this)
      ensures items != [] ==>
                busy && request == Some(Request(BatchPrompt(items), BatchPrefix))
                && status == Working && ButtonsFollowState() && !entryEnabled
    {
      if items == [] {
        return;
      }
      RunTask(BatchPrompt(items), BatchPrefix);
    }

    /** `on_task_finished`: the results panel shows the formatted reply
        under the request's heading, followed by the notice, and the controls
        come back. */
    method OnTaskFinished(description: string)
      requires Valid() && busy
      modifies this`resultText, this`status, this`busy, this`request,
               this`entryEnabled, this`describeOneEnabled, this`describeAllEnabled, this`clearEnabled
      ensures Valid() && ButtonsFollowState()
      ensures !busy && request == None && entryEnabled
      ensures resultText == Displayed(old(request).value.prefix, description)
      ensures status == Loaded
    {
      var prefix := request.value.prefix;
      resultText := Displayed(prefix, description);
      status := Loaded;
      busy := false;
      request := None;
      SetControlsEnabled(true);
    }

    /** A successful request: the worker's `gemini_api_call` formats the
        model's reply with `process_gemini_response`, and its `finished`
        signal delivers the result to `on_task_finished`. */
    method ReplyArrived(reply: string)
      requires Valid() && busy
      modifies this`resultText, this`status, this`busy, this`request,
               this`entryEnabled, this`describeOneEnabled, this`describeAllEnabled, this`clearEnabled
      ensures Valid() && ButtonsFollowState()
      ensures !busy && request == None && entryEnabled
      ensures resultText == Displayed(old(request).value.prefix, ResponseFormat.Process(reply))
      ensures status == Loaded
    {
      var description := ResponseFormat.Process(reply);
      OnTaskFinished(description);
    }

    /** `on_task_error`: a message about an invalid key removes the stored
        key; the results stay as they were and the controls come back. */
    method OnTaskError(message: string)
      requires Valid() && busy
      modifies this`keyStored, this`status, this`busy, this`request,
               this`entryEnabled, this`describeOneEnabled, this`describeAllEnabled, this`clearEnabled
      ensures Valid() && ButtonsFollowState()
      ensures !busy && request == None && entryEnabled
      ensures keyStored == (old(keyStored) && !Contains(message, InvalidKeyMarker))
      ensures status == ApiError
    {
      if Contains(message, InvalidKeyMarker) && keyStored {
        keyStored := false;
      }
      status := ApiError;
      busy := false;
      request := None;
      SetControlsEnabled(true);
    }
  }
}
