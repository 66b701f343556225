/** The review web UI of reviewGUI/app.py: it lists the records whose image proof is
    pending and lets a reviewer set a record's `image_status`.

    The data directory is a map from file name to content, plus the order in which a
    directory listing yields the names. A file holds malformed JSON, a JSON object
    (the record, field by field) or some other JSON value. */
module ReviewGui {
  import opened Common

  datatype Content = Malformed | Object(fields: map<string, Json>) | NotAnObject

  /** A record as the `/get_images` route returns it. */
  type Image = map<string, Json>

  /** Python's `str(v)` of a scalar JSON value, as an f-string prints it. */
  function PyStr(v: Json): string {
    match v
    case JNull => "None"
    case JBool(b) => if b then "True" else "False"
    case JInt(i) => if i < 0 then "-" + NatToString(-i) else NatToString(i)
    case JStr(s) => s
  }

  // ---------------------------------------------------------------------------
  // str.replace

  /** `s.replace(pat, rep)`: every non-overlapping occurrence, scanning left to right. */
  function Replace(s: string, pat: string, rep: string): string
    requires pat != []
    decreases |s|
  {
    if |s| < |pat| then s
    else if s[..|pat|] == pat then rep + Replace(s[|pat|..], pat, rep)
    else [s[0]] + Replace(s[1..], pat, rep)
  }

  /** A string without the pattern is left alone. */
  lemma {:induction false} ReplaceAbsent(s: string, pat: string, rep: string)
    requires pat != [] && !Contains(s, pat)
    ensures Replace(s, pat, rep) == s
    decreases |s|
  {
    if |s| >= |pat| {
      ReplaceAbsent(s[1..], pat, rep);
    }
  }

  /** When the first character of the pattern occurs nowhere else in it, no occurrence
      straddles the end of `a`, so a trailing pattern is removed on its own. */
  lemma {:induction false} ReplaceTrailing(a: string, pat: string)
    requires pat != [] && forall k :: 1 <= k < |pat| ==> pat[k] != pat[0]
    ensures Replace(a + pat, pat, "") == Replace(a, pat, "")
    decreases |a|
  {
    var s := a + pat;
    if a == [] {
      assert s[..|pat|] == pat && s[|pat|..] == [];
    } else if |a| < |pat| {
      ReplaceTrailingShort(a, pat);
    } else {
      assert s[..|pat|] == a[..|pat|];
      if s[..|pat|] == pat {
        assert s[|pat|..] == a[|pat|..] + pat;
        ReplaceTrailing(a[|pat|..], pat);
      } else {
        assert s[1..] == a[1..] + pat;
        ReplaceTrailing(a[1..], pat);
      }
    }
  }

  /** The case of a non-empty `a` shorter than the pattern: the pattern cannot start
      inside `a`, and what is left of `a` is too short to hold it. */
  lemma ReplaceTrailingShort(a: string, pat: string)
    requires 0 < |a| < |pat| && forall k :: 1 <= k < |pat| ==> pat[k] != pat[0]
    ensures Replace(a + pat, pat, "") == Replace(a, pat, "")
  {
    var s := a + pat;
    assert s[|a|] == pat[0];
    assert s[..|pat|] != pat by {
      assert s[..|pat|][|a|] == s[|a|];
    }
    assert s[1..] == a[1..] + pat;
    ReplaceTrailingShortTail(a[1..], pat);
    assert Replace(a[1..], pat, "") == a[1..];
    assert [a[0]] + a[1..] == a;
  }

  /** A piece shorter than the pattern, followed by the pattern, loses exactly the pattern. */
  lemma {:induction false} ReplaceTrailingShortTail(t: string, pat: string)
    requires |t| < |pat| && forall k :: 1 <= k < |pat| ==> pat[k] != pat[0]
    ensures Replace(t + pat, pat, "") == t
    decreases |t|
  {
    var s := t + pat;
    if t == [] {
      assert s[..|pat|] == pat && s[|pat|..] == [];
    } else {
      assert s[..|pat|] != pat by {
        assert s[..|pat|][|t|] == pat[0];
      }
      assert s[1..] == t[1..] + pat;
      ReplaceTrailingShortTail(t[1..], pat);
      assert [t[0]] + t[1..] == t;
    }
  }

  // ---------------------------------------------------------------------------
  // load_pending_images

  const JsonSuffix := ".json"

  /** The id the listing gives a file: its name with every ".json" removed. */
  function FileId(name: string): string {
    Replace(name, JsonSuffix, "")
  }

  /** The file `update_image_status` opens for a user id is listed under that id again,
      provided the id itself does not contain ".json". */
  lemma FileIdOfUserFile(userId: string)
    requires !Contains(userId, JsonSuffix)
    ensures FileId(userId + JsonSuffix) == userId
  {
    ReplaceTrailing(userId, JsonSuffix);
    ReplaceAbsent(userId, JsonSuffix, "");
  }

  /** `user_data.get("image_status") == "pending"`. */
  predicate IsPending(fields: map<string, Json>) {
    "image_status" in fields && fields["image_status"] == JStr("pending")
  }

  /** The record with its `id` field set from the file name. */
  function Tagged(fields: map<string, Json>, name: string): (img: Image)
    ensures "id" in img && img["id"] == JStr(FileId(name))
    ensures forall k :: k in fields && k != "id" ==> k in img && img[k] == fields[k]
  {
    fields["id" := JStr(FileId(name))]
  }

  /** What the scan of `names` returns: None when it stops on the AttributeError that
      `.get` raises on a JSON value that is not an object. */
  function Scan(names: seq<string>, files: map<string, Content>): (r: Option<seq<Image>>)
    requires forall k :: 0 <= k < |names| ==> names[k] in files
    ensures r.Some? ==> |r.value| <= |names|
  {
    if names == [] then Some([])
    else
      var prev := Scan(names[..|names| - 1], files);
      var name := names[|names| - 1];
      if prev.None? || !EndsWith(name, JsonSuffix) then prev
      else
        match files[name]
        case Malformed => prev
        case NotAnObject => None
        case Object(fields) => if IsPending(fields) then Some(prev.value + [Tagged(fields, name)]) else prev
  }

  /** A listed `.json` file the scan keeps. */
  predicate Listed(names: seq<string>, files: map<string, Content>, img: Image)
    requires forall k :: 0 <= k < |names| ==> names[k] in files
  {
    exists k :: 0 <= k < |names| && EndsWith(names[k], JsonSuffix) && files[names[k]].Object?
                && IsPending(files[names[k]].fields) && img == Tagged(files[names[k]].fields, names[k])
  }

  /** The scan fails exactly when a listed `.json` file is valid JSON but not an object;
      otherwise it returns exactly the pending records, tagged with their ids, skipping
      files of malformed JSON and files of other names. */
  lemma {:induction false} ScanIff(names: seq<string>, files: map<string, Content>)
    requires forall k :: 0 <= k < |names| ==> names[k] in files
    ensures Scan(names, files).None? <==>
            exists k :: 0 <= k < |names| && EndsWith(names[k], JsonSuffix) && files[names[k]].NotAnObject?
    ensures Scan(names, files).Some? ==>
            forall img :: img in Scan(names, files).value <==> Listed(names, files, img)
    decreases |names|
  {
    if names != [] {
      var init := names[..|names| - 1];
      var name := names[|names| - 1];
      ScanIff(init, files);
      forall k | 0 <= k < |init| ensures init[k] == names[k] { }
      if Scan(names, files).Some? {
        forall img ensures img in Scan(names, files).value <==> Listed(names, files, img) {
          if Listed(names, files, img) {
            var k :| 0 <= k < |names| && EndsWith(names[k], JsonSuffix) && files[names[k]].Object?
                     && IsPending(files[names[k]].fields) && img == Tagged(files[names[k]].fields, names[k]);
            if k < |init| {
              assert Listed(init, files, img);
            }
          }
          if img in Scan(init, files).value {
            var k :| 0 <= k < |init| && EndsWith(init[k], JsonSuffix) && files[init[k]].Object?
                     && IsPending(files[init[k]].fields) && img == Tagged(files[init[k]].fields, init[k]);
            assert names[k] == init[k];
          }
        }
      }
    }
  }

  /** Every record the listing returns is pending and carries an id. */
  lemma ScannedArePending(names: seq<string>, files: map<string, Content>)
    requires forall k :: 0 <= k < |names| ==> names[k] in files
    requires Scan(names, files).Some?
    ensures forall img :: img in Scan(names, files).value ==> IsPending(img) && "id" in img
  {
    ScanIff(names, files);
    forall img | img in Scan(names, files).value ensures IsPending(img) && "id" in img {
      var k :| 0 <= k < |names| && EndsWith(names[k], JsonSuffix) && files[names[k]].Object?
               && IsPending(files[names[k]].fields) && img == Tagged(files[names[k]].fields, names[k]);
    }
  }

  // ---------------------------------------------------------------------------
  // update_image_status and the routes

  /** How update_image_status ends: with a boolean, or with an exception that escapes
      (assigning a key into a JSON value that is not an object). */
  datatype Outcome = Returned(ok: bool) | Raised

  /** The record after its status is set: `image_status` and nothing else changes. */
  function WithStatus(fields: map<string, Json>, status: Json): (f: map<string, Json>)
    ensures "image_status" in f && f["image_status"] == status
    ensures f.Keys == fields.Keys + {"image_status"}
    ensures forall k :: k in fields && k != "image_status" ==> f[k] == fields[k]
  {
    fields["image_status" := status]
  }

  /** The JSON reply of `/update_status`. */
  datatype Reply = Reply(success: bool, message: string)

  /** The data directory the review UI reads and writes. */
  class DataDir {
    /** the order in which `os.listdir` yields the file names */
    var names: seq<string>
    /** the files, by name */
    var files: map<string, Content>

    ghost predicate Valid()
      reads this
    {
      forall n :: n in names <==> n in files
    }

    constructor (names: seq<string>, files: map<string, Content>)
      requires forall n :: n in names <==> n in files
      ensures this.names == names && this.files == files && Valid()
    {
      this.names := names;
      this.files := files;
    }

    /** load_pending_images: None when the scan raises. */
    method LoadPendingImages() returns (images: Option<seq<Image>>)
      requires Valid()
      ensures images == Scan(names, files)
      ensures images.Some? ==> forall img :: img in images.value <==> Listed(names, files, img)
    {
      var pending: seq<Image> := [];
      var i := 0;
      while i < |names|
        invariant 0 <= i <= |names|
        invariant Scan(names[..i], files) == Some(pending)
      {
        var name := names[i];
        assert names[..i + 1][..i] == names[..i] && names[..i + 1][i] == name;
        if EndsWith(name, JsonSuffix) {
          match files[name]
          case Malformed =>
          case NotAnObject =>
            assert Scan(names[..i + 1], files) == None;
            ScanStaysNone(names, files, i + 1);
            assert names[..|names|] == names;
            return None;
          case Object(fields) =>
            if IsPending(fields) {
              pending := pending + [Tagged(fields, name)];
            }
        }
        i := i + 1;
      }
      assert names[..i] == names;
      images := Some(pending);
      ScanIff(names, files);
    }

    /** update_image_status. */
    method UpdateImageStatus(userId: string, status: Json) returns (outcome: Outcome)
      requires Valid()
      modifies this`files
      ensures Valid()
      ensures var name := userId + JsonSuffix;
              && (name !in old(files) ==> outcome == Returned(false) && files == old(files))
              && (name in old(files) && old(files)[name].Malformed? ==> outcome == Returned(false) && files == old(files))
              && (name in old(files) && old(files)[name].NotAnObject? ==> outcome == Raised && files == old(files))
              && (name in old(files) && old(files)[name].Object? ==>
                    outcome == Returned(true)
                    && files == old(files)[name := Object(WithStatus(old(files)[name].fields, status))])
    {
      var name := userId + JsonSuffix;
      if name !in files {
        return Returned(false);
      }
      match files[name]
      case Malformed =>
        return Returned(false);
      case NotAnObject =>
        return Raised;
      case Object(fields) =>
        files := files[name := Object(WithStatus(fields, status))];
        return Returned(true);
    }

    /** update_status: the reply for the posted `user_id` and `status` (JNull when a key
        is missing), or None when the update raised. */
    method UpdateStatus(userId: Json, status: Json) returns (reply: Option<Reply>)
      requires Valid()
      modifies this`files
      ensures Valid()
      ensures var name := PyStr(userId) + JsonSuffix;
              && (reply.None? <==> name in old(files) && old(files)[name].NotAnObject?)
              && (reply.Some? ==> (reply.value.success <==> name in old(files) && old(files)[name].Object?))
              && (reply.Some? && reply.value.success ==>
                    reply.value.message == "Image marked as " + PyStr(status) + "."
                    && files == old(files)[name := Object(WithStatus(old(files)[name].fields, status))])
              && (reply.Some? && !reply.value.success ==>
                    reply.value.message == "User not found!" && files == old(files))
    {
      var outcome := UpdateImageStatus(PyStr(userId), status);
      if outcome == Raised {
        return None;
      }
      if outcome.ok {
        return Some(Reply(true, "Image marked as " + PyStr(status) + "."));
      }
      return Some(Reply(false, "User not found!"));
    }
  }

  /** Once the scan of a prefix has failed, the scan of the whole listing fails. */
  lemma {:induction false} ScanStaysNone(names: seq<string>, files: map<string, Content>, i: nat)
    requires forall k :: 0 <= k < |names| ==> names[k] in files
    requires i <= |names| && Scan(names[..i], files).None?
    ensures Scan(names, files).None?
    decreases |names| - i
  {
    if i < |names| {
      assert names[..i + 1][..i] == names[..i];
      ScanStaysNone(names, files, i + 1);
    } else {
      assert names[..i] == names;
    }
  }
}
