/** Attachment intake of the chat widget: which picked files become pending
    image attachments, and in which order. */
module Attachments {

  /** Largest accepted image, in MiB. */
  const MAX_SIZE_MB: nat := 8
  /** The same limit in bytes. */
  const MaxBytes: nat := MAX_SIZE_MB * 1024 * 1024

  /** A file picked by the user: its name, its MIME type (possibly empty) and its size in bytes. */
  datatype File = File(name: string, mimeType: string, size: nat)

  /** A pending attachment: the file and its contents encoded as base64. */
  datatype Attachment = Attachment(file: File, b64: string)

  predicate StartsWith(s: string, prefix: string) {
    |prefix| <= |s| && s[..|prefix|] == prefix
  }

  /** The type test of the first filtering pass. */
  predicate IsImage(f: File) {
    StartsWith(f.mimeType, "image/")
  }

  /** A file becomes an attachment when it is an image and not larger than the limit. */
  predicate Accepted(f: File) {
    IsImage(f) && f.size <= MaxBytes
  }

  /** The acceptance test in numbers: a type beginning with `image/`, and at most
      8388608 bytes (8 MiB) inclusive. */
  lemma AcceptedLimits(f: File)
    ensures Accepted(f) ==> 6 <= |f.mimeType| && f.mimeType[..6] == "image/"
    ensures f.size > 8388608 ==> !Accepted(f)
    ensures IsImage(f) && f.size <= 8388608 ==> Accepted(f)
  {
  }

  /** The files of `files` whose type is an image type, in their original order. */
  function ImageFiles(files: seq<File>): (r: seq<File>)
    ensures |r| <= |files|
    ensures forall k :: 0 <= k < |r| ==> IsImage(r[k])
  {
    if files == [] then []
    else (if IsImage(files[0]) then [files[0]] else []) + ImageFiles(files[1..])
  }

  /** The files kept by the type filter are exactly the image-typed files of the list. */
  lemma {:induction false} ImageFilesMembers(files: seq<File>)
    ensures forall f :: f in ImageFiles(files) <==> f in files && IsImage(f)
  {
    if files != [] {
      ImageFilesMembers(files[1..]);
      assert forall f :: f in files <==> f == files[0] || f in files[1..];
    }
  }

  /** The type filter works file by file and keeps the order and the repetitions
      of the list: filtering a concatenation is concatenating the filtered parts. */
  lemma {:induction false} ImageFilesAppend(a: seq<File>, b: seq<File>)
    ensures ImageFiles(a + b) == ImageFiles(a) + ImageFiles(b)
  {
    if a == [] {
      assert a + b == b;
    } else {
      assert (a + b)[0] == a[0];
      assert (a + b)[1..] == a[1..] + b;
      ImageFilesAppend(a[1..], b);
    }
  }

  /** On a single file the type filter keeps it exactly when it is an image. */
  lemma ImageFilesSingle(f: File)
    ensures ImageFiles([f]) == if IsImage(f) then [f] else []
  {
    assert [f][1..] == [];
  }

  /** The attachment one picked file adds: itself with its encoding when accepted, nothing otherwise. */
  function Kept(f: File, encode: File -> string): seq<Attachment> {
    if Accepted(f) then [Attachment(f, encode(f))] else []
  }

  /** The attachments that picking `files` adds: every accepted file, in order,
      paired with its encoding. */
  function Intake(files: seq<File>, encode: File -> string): (r: seq<Attachment>)
    ensures |r| <= |files|
  {
    if files == [] then [] else Kept(files[0], encode) + Intake(files[1..], encode)
  }

  /** The attachments added are exactly the accepted files of the list, each
      with its own encoding. */
  lemma {:induction false} IntakeMembers(files: seq<File>, encode: File -> string)
    ensures forall a :: a in Intake(files, encode) <==> a.file in files && Accepted(a.file) && a.b64 == encode(a.file)
  {
    if files != [] {
      IntakeMembers(files[1..], encode);
      assert forall f :: f in files <==> f == files[0] || f in files[1..];
    }
  }

  /** Picking two lists one after the other adds the same attachments as picking
      their concatenation: intake works file by file, keeping the order. */
  lemma {:induction false} IntakeAppend(a: seq<File>, b: seq<File>, encode: File -> string)
    ensures Intake(a + b, encode) == Intake(a, encode) + Intake(b, encode)
  {
    if a == [] {
      assert a + b == b;
    } else {
      assert (a + b)[0] == a[0];
      assert (a + b)[1..] == a[1..] + b;
      IntakeAppend(a[1..], b, encode);
      calc {
        Intake(a + b, encode);
        Kept(a[0], encode) + Intake(a[1..] + b, encode);
        Kept(a[0], encode) + (Intake(a[1..], encode) + Intake(b, encode));
        (Kept(a[0], encode) + Intake(a[1..], encode)) + Intake(b, encode);
      }
    }
  }

  /** Taking one more file of a list adds that file's attachment, when it is accepted. */
  lemma IntakeSnoc(files: seq<File>, i: nat, encode: File -> string)
    requires i < |files|
    ensures Intake(files[..i + 1], encode) == Intake(files[..i], encode) + Kept(files[i], encode)
  {
    assert files[..i + 1] == files[..i] + [files[i]];
    IntakeAppend(files[..i], [files[i]], encode);
    assert [files[i]][1..] == [];
  }

  /** Filtering by type first and then by size accepts the same files, in the
      same order, as the single acceptance test. */
  lemma {:induction false} IntakeOfImageFiles(files: seq<File>, encode: File -> string)
    ensures Intake(ImageFiles(files), encode) == Intake(files, encode)
  {
    if files != [] {
      IntakeOfImageFiles(files[1..], encode);
      var head := if IsImage(files[0]) then [files[0]] else [];
      IntakeAppend(head, ImageFiles(files[1..]), encode);
      if IsImage(files[0]) {
        assert head[1..] == [];
      }
    }
  }

  /** A list with no acceptable file adds nothing; a list of acceptable files adds all of them. */
  lemma {:induction false} IntakeAllOrNothing(files: seq<File>, encode: File -> string)
    ensures (forall k :: 0 <= k < |files| ==> !Accepted(files[k])) ==> Intake(files, encode) == []
    ensures (forall k :: 0 <= k < |files| ==> Accepted(files[k])) ==>
              |Intake(files, encode)| == |files| &&
              forall k :: 0 <= k < |files| ==> Intake(files, encode)[k] == Attachment(files[k], encode(files[k]))
  {
    if files != [] {
      IntakeAllOrNothing(files[1..], encode);
      if forall k :: 0 <= k < |files| ==> Accepted(files[k]) {
        assert Accepted(files[0]);
        assert forall k :: 0 <= k < |files[1..]| ==> Accepted(files[1..][k]) by {
          forall k | 0 <= k < |files[1..]| ensures Accepted(files[1..][k]) {
            assert files[1..][k] == files[k + 1];
          }
        }
      }
      if forall k :: 0 <= k < |files| ==> !Accepted(files[k]) {
        assert !Accepted(files[0]);
        assert forall k :: 0 <= k < |files[1..]| ==> !Accepted(files[1..][k]) by {
          forall k | 0 <= k < |files[1..]| ensures !Accepted(files[1..][k]) {
            assert files[1..][k] == files[k + 1];
          }
        }
      }
    }
  }
}
