/** The conversation history sent to the completion provider: its turns, the
    window that bounds it, and the merge of pending images into the most recent
    user turn. */
module History {
  import opened Attachments

  /** Exchanges kept after the pinned instruction turn. */
  const MAX_TURNS: nat := 12
  /** Turns kept after the pinned instruction turn. */
  const Window: nat := MAX_TURNS * 2

  datatype Role = User | Model

  /** A turn's content unit: text, or an inline image. */
  datatype Part = TextPart(text: string) | InlineData(mimeType: string, data: string)

  datatype Turn = Turn(role: Role, parts: seq<Part>)

  /** A history as the widget keeps it: a user-role turn at index 0, and no more
      than the window after it. */
  predicate WellFormed(h: seq<Turn>) {
    1 <= |h| <= 1 + Window && h[0].role == User
  }

  function Min(a: int, b: int): int {
    if a < b then a else b
  }

  /** JavaScript's one-argument `slice`: a negative start counts from the end,
      and a start past either end is clamped. */
  function SliceFrom<T>(s: seq<T>, start: int): (r: seq<T>)
    ensures |r| <= |s| && r == s[|s| - |r|..]
    ensures start < 0 ==> |r| == Min(-start, |s|)
    ensures 0 <= start ==> |r| == if start <= |s| then |s| - start else 0
  {
    if start < 0 then (if |s| + start < 0 then s else s[|s| + start..])
    else if start <= |s| then s[start..]
    else []
  }

  /** The history after the window is applied: index 0 plus the last `Window` turns. */
  function Trimmed(h: seq<Turn>): (r: seq<Turn>)
    ensures |r| <= 1 + Window
    ensures |h| <= 1 + Window ==> r == h
    ensures |h| > 0 ==> |r| == 1 + Min(|h| - 1, Window) && r[0] == h[0]
    ensures |h| > 0 ==> r[1..] == h[|h| - (|r| - 1)..]
  {
    var keep := 1 + Min(|h| - 1, Window);
    if |h| > keep then [h[0]] + SliceFrom(h, -keep + 1) else h
  }

  /** Applying the window to a windowed history changes nothing. */
  lemma TrimIdempotent(h: seq<Turn>)
    ensures Trimmed(Trimmed(h)) == Trimmed(h)
  {
  }

  /** Windowing after every push keeps the same turns as windowing the whole log
      once: index 0 and the last `Window` turns ever pushed. */
  lemma TrimAppend(h: seq<Turn>, t: Turn)
    requires |h| > 0
    ensures Trimmed(Trimmed(h) + [t]) == Trimmed(h + [t])
  {
  }

  /** Index of the most recent user-role turn, or -1 when there is none. */
  function LastUserIndex(h: seq<Turn>): (r: int)
    ensures -1 <= r < |h|
    ensures r >= 0 ==> h[r].role == User
    ensures forall j :: r < j < |h| ==> h[j].role != User
    ensures |h| > 0 && h[0].role == User ==> r >= 0
  {
    if |h| == 0 then -1
    else if h[|h| - 1].role == User then |h| - 1
    else LastUserIndex(h[..|h| - 1])
  }

  /** The backward scan for the most recent user-role turn. */
  method FindLastUser(h: seq<Turn>) returns (lastUser: int)
    ensures lastUser == LastUserIndex(h)
    ensures lastUser >= 0 ==> h[lastUser].role == User
    ensures forall j :: lastUser < j < |h| ==> h[j].role != User
  {
    lastUser := -1;
    var i := |h| - 1;
    while i >= 0
      invariant -1 <= i < |h|
      invariant lastUser == -1
      invariant forall j :: i < j < |h| ==> h[j].role != User
      decreases i + 1
    {
      if h[i].role == User {
        lastUser := i;
        break;
      }
      i := i - 1;
    }
  }

  /** The part an attachment becomes; a file without a type is sent with the wildcard image type. */
  function ImagePart(a: Attachment): Part {
    InlineData(if a.file.mimeType == "" then "image/*" else a.file.mimeType, a.b64)
  }

  /** The image parts of the pending attachments, one per attachment, in order. */
  function ImageParts(images: seq<Attachment>): (r: seq<Part>)
    ensures |r| == |images|
    ensures forall k :: 0 <= k < |images| ==> r[k] == ImagePart(images[k])
  {
    if images == [] then [] else [ImagePart(images[0])] + ImageParts(images[1..])
  }

  lemma {:induction false} ImagePartsAppend(a: seq<Attachment>, b: seq<Attachment>)
    ensures ImageParts(a + b) == ImageParts(a) + ImageParts(b)
  {
  }

  /** The history with the pending images prepended to the parts of the most
      recent user turn; nothing else changes. */
  function Merged(h: seq<Turn>, images: seq<Attachment>): (r: seq<Turn>)
    ensures |r| == |h|
    ensures forall j :: 0 <= j < |h| && j != LastUserIndex(h) ==> r[j] == h[j]
    ensures images != [] && LastUserIndex(h) >= 0 ==>
              r[LastUserIndex(h)] == Turn(User, ImageParts(images) + h[LastUserIndex(h)].parts)
    ensures images == [] || LastUserIndex(h) == -1 ==> r == h
  {
    var lastUser := LastUserIndex(h);
    if lastUser != -1 && |images| > 0 then
      h[lastUser := Turn(User, ImageParts(images) + h[lastUser].parts)]
    else h
  }

  /** The merge keeps roles, so it also keeps the index of the most recent user turn. */
  lemma MergedKeepsLastUser(h: seq<Turn>, images: seq<Attachment>)
    ensures LastUserIndex(Merged(h, images)) == LastUserIndex(h)
  {
  }

  /** The merge keeps the history well formed. */
  lemma MergedWellFormed(h: seq<Turn>, images: seq<Attachment>)
    requires WellFormed(h)
    ensures WellFormed(Merged(h, images))
  {
  }

  /** Merging two batches one after the other is merging them at once, the later
      batch first. */
  lemma MergeTwice(h: seq<Turn>, first: seq<Attachment>, second: seq<Attachment>)
    ensures Merged(Merged(h, first), second) == Merged(h, second + first)
  {
    var u := LastUserIndex(h);
    MergedKeepsLastUser(h, first);
    ImagePartsAppend(second, first);
    if u >= 0 && first != [] && second != [] {
      assert ImageParts(second) + (ImageParts(first) + h[u].parts)
          == ImageParts(second + first) + h[u].parts;
    } else if first == [] {
      assert second + first == second;
    } else if second == [] {
      assert second + first == first;
    }
  }

  /** Pushing a text turn, applying the window and then merging the pending
      images yields the same history as pushing one user turn that carries the
      images before the text: the images land on the turn sent with them. */
  lemma PushThenMerge(h: seq<Turn>, message: string, images: seq<Attachment>)
    ensures Merged(Trimmed(h + [Turn(User, [TextPart(message)])]), images)
         == Trimmed(h + [Turn(User, ImageParts(images) + [TextPart(message)])])
  {
    var plain := Turn(User, [TextPart(message)]);
    var rich := Turn(User, ImageParts(images) + [TextPart(message)]);
    var p := Trimmed(h + [plain]);
    var q := Trimmed(h + [rich]);
    var n := |p| - 1;
    assert p[n] == plain by {
      if |p| > 1 {
        assert p[1..][n - 1] == p[n];
      }
    }
    assert LastUserIndex(p) == n;
    assert |q| == |p|;
    forall j | 0 <= j < |p| ensures Merged(p, images)[j] == q[j] {
      if j > 0 {
        assert p[1..][j - 1] == p[j];
        assert q[1..][j - 1] == q[j];
        var off := |h| + 1 - (|p| - 1);
        assert p[j] == (h + [plain])[off + j - 1];
        assert q[j] == (h + [rich])[off + j - 1];
      }
    }
  }
}
