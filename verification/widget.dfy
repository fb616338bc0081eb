/** The chat widget's conversation state: the history sent to the completion
    provider and the images waiting to be sent, with the handlers that change
    them. Handlers run one after the other. */
module Widget {
  import opened Attachments
  import opened History
  import opened Text

  /** What the completion provider's request ended with. `Reply(raw)` is a
      successful response, with `raw` the text of the first candidate's first
      part, or `""` when the body carries no such text. `Failed` is a thrown
      error: the network, a non-success HTTP status with its error message, or
      a body that is not JSON. */
  datatype Outcome = Reply(raw: string) | Failed

  /** The model turn a reply becomes, once its text has been cleaned. */
  function ModelTurn(text: string): Turn {
    Turn(Model, [TextPart(text)])
  }

  /** The history after the provider answered: a reply is appended as a model
      turn and the window applied; a failure leaves the history as it was sent. */
  function AfterResponse(sent: seq<Turn>, outcome: Outcome, clean: string -> string): (r: seq<Turn>)
    ensures outcome.Failed? ==> r == sent
    ensures outcome.Reply? && |sent| < 1 + Window ==> r == sent + [ModelTurn(clean(outcome.raw))]
    ensures outcome.Reply? ==> 1 <= |r| <= 1 + Window && r[|r| - 1] == ModelTurn(clean(outcome.raw))
    ensures outcome.Reply? && |sent| > 0 ==> r[0] == sent[0]
    ensures WellFormed(sent) ==> WellFormed(r)
  {
    match outcome
    case Reply(raw) => Trimmed(sent + [ModelTurn(clean(raw))])
    case Failed => sent
  }

  class ChatSession {
    var history: seq<Turn>
    var selectedImages: seq<Attachment>

    ghost predicate Valid()
      reads this
    {
      WellFormed(history)
    }

    /** A session starts with the instruction pinned as a user turn and no images. */
    constructor (instruction: string)
      ensures Valid()
      ensures history == [Turn(User, [TextPart(instruction)])]
      ensures selectedImages == []
    {
      history := [Turn(User, [TextPart(instruction)])];
      selectedImages := [];
    }

    /** Keep the pinned turn and the last `Window` turns. */
    method TrimHistory()
      modifies this
      ensures history == Trimmed(old(history))
      ensures selectedImages == old(selectedImages)
      ensures old(Valid()) ==> Valid() && history[0] == old(history[0])
    {
      var keep := 1 + Min(|history| - 1, Window);
      if |history| > keep {
        history := [history[0]] + SliceFrom(history, -keep + 1);
      }
    }

    /** Append the accepted image files of a picked list, in order, with their
        encodings; `encode` stands for the browser's base64 reader. */
    method AddFiles(fileList: seq<File>, encode: File -> string)
      modifies this
      ensures selectedImages == old(selectedImages) + Intake(fileList, encode)
      ensures history == old(history)
    {
      var files := ImageFiles(fileList);
      var i := 0;
      while i < |files|
        invariant 0 <= i <= |files|
        invariant selectedImages == old(selectedImages) + Intake(files[..i], encode)
        invariant history == old(history)
      {
        var file := files[i];
        IntakeSnoc(files, i, encode);
        if file.size > MaxBytes {
          i := i + 1;
          continue;
        }
        selectedImages := selectedImages + [Attachment(file, encode(file))];
        i := i + 1;
      }
      assert files[..|files|] == files;
      IntakeOfImageFiles(fileList, encode);
    }

    /** Prepend the pending images to the parts of the most recent user turn. */
    method MergePendingImages() returns (lastUser: int)
      modifies this
      ensures lastUser == LastUserIndex(old(history))
      ensures history == Merged(old(history), old(selectedImages))
      ensures selectedImages == old(selectedImages)
      ensures old(Valid()) ==> Valid() && lastUser >= 0
    {
      lastUser := FindLastUser(history);
      if lastUser != -1 && |selectedImages| > 0 {
        var imageParts := ImageParts(selectedImages);
        var parts := history[lastUser].parts;
        history := history[lastUser := Turn(User, imageParts + parts)];
      }
      if old(Valid()) {
        MergedWellFormed(old(history), old(selectedImages));
      }
    }

    /** Merge the pending images, send the history, record a reply, and drop the
        pending images whatever the outcome. Returns the history as sent. */
    method GenerateBotResponse(outcome: Outcome, clean: string -> string) returns (payload: seq<Turn>)
      modifies this
      ensures payload == Merged(old(history), old(selectedImages))
      ensures history == AfterResponse(payload, outcome, clean)
      ensures selectedImages == []
      ensures old(Valid()) ==> Valid()
    {
      var _ := MergePendingImages();
      payload := history;
      match outcome {
        case Reply(raw) =>
          var apiResponseText := clean(raw);
          history := history + [ModelTurn(apiResponseText)];
          TrimHistory();
        case Failed =>
      }
      selectedImages := [];
    }

    /** Send the message box's contents: nothing happens when the trimmed text is
        empty and no image is pending; otherwise one user turn with the trimmed
        text is pushed, the window applied, and the response generated. */
    method HandleOutgoingMessage(input: string, outcome: Outcome, clean: string -> string)
      returns (sent: bool, payload: seq<Turn>)
      modifies this
      ensures sent <==> !AllWhitespace(input) || old(selectedImages) != []
      ensures !sent ==> history == old(history) && selectedImages == old(selectedImages) && payload == []
      ensures sent ==> payload == Merged(Trimmed(old(history) + [Turn(User, [TextPart(Trim(input))])]), old(selectedImages))
      ensures sent ==> payload == Trimmed(old(history) + [Turn(User, ImageParts(old(selectedImages)) + [TextPart(Trim(input))])])
      ensures sent ==> history == AfterResponse(payload, outcome, clean) && selectedImages == []
      ensures old(Valid()) ==> Valid() && history[0] == old(history[0])
    {
      var message := Trim(input);
      if message == "" && |selectedImages| == 0 {
        return false, [];
      }
      history := history + [Turn(User, [TextPart(message)])];
      TrimHistory();
      PushThenMerge(old(history), message, old(selectedImages));
      sent := true;
      payload := GenerateBotResponse(outcome, clean);
    }
  }

  /** A user action the page reacts to: picking files, or submitting the message
      box (with the provider's eventual outcome). */
  datatype Event = Pick(files: seq<File>) | Submit(input: string, outcome: Outcome)

  /** Over any run of handlers, the history keeps its pinned instruction turn
      and never exceeds the window. */
  method Run(instruction: string, events: seq<Event>, encode: File -> string, clean: string -> string)
    returns (session: ChatSession)
    ensures session.Valid()
    ensures session.history[0] == Turn(User, [TextPart(instruction)])
    ensures 1 <= |session.history| <= 1 + Window
  {
    session := new ChatSession(instruction);
    for i := 0 to |events|
      invariant session.Valid()
      invariant session.history[0] == Turn(User, [TextPart(instruction)])
    {
      match events[i] {
        case Pick(files) =>
          session.AddFiles(files, encode);
        case Submit(input, outcome) =>
          var _, _ := session.HandleOutgoingMessage(input, outcome, clean);
      }
    }
  }
}
