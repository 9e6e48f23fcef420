/**
 * The featured-image list editing of the submission wizard and the inline post form:
 * choosing which selected files to upload so the list stays within four images, adding the
 * entries the uploads answer with, and removing one entry by its position. The two forms differ
 * in how an upload's answer writes the list: the inline form appends to the list as it is when
 * the answer arrives, the wizard writes back the list it captured when the files were picked.
 * Both write an answer's `url` without looking at it, so a refused upload adds an entry that
 * holds no address.
 */
module ImageList {
  import opened Common
  import opened Posts

  /** `a.slice(0, end)` for a JavaScript array: a negative `end` counts back from the end,
      and `end` is clamped to the array. */
  function SlicePrefix<T>(s: seq<T>, end: int): (r: seq<T>)
    ensures r <= s
    ensures 0 <= end ==> |r| == if end < |s| then end else |s|
    ensures end < 0 ==> |r| == if |s| + end < 0 then 0 else |s| + end
  {
    var stop := if end < 0 then (if |s| + end < 0 then 0 else |s| + end)
                else (if end < |s| then end else |s|);
    s[..stop]
  }

  /** `files.slice(0, 4 - count)`: the selected files that get uploaded when `count` images are
      already in the list. */
  function FilesToUpload<T>(files: seq<T>, count: nat): (r: seq<T>)
    ensures r <= files
    // Within the cap, as many files are uploaded as there is room for, and no more.
    ensures count <= MaxFeaturedImages ==> count + |r| <= MaxFeaturedImages
    ensures count <= MaxFeaturedImages ==>
              |r| == if |files| < MaxFeaturedImages - count then |files| else MaxFeaturedImages - count
    // A full list takes nothing more.
    ensures count == MaxFeaturedImages ==> r == []
  {
    SlicePrefix(files, MaxFeaturedImages - count)
  }

  /** How one file's upload ended for the page. `Lost`: the request or the reading of its JSON
      failed, so no answer is written (the wizard catches the error, the inline form leaves it
      unhandled). `Replied`: the endpoint answered with JSON, and the page writes the answer's
      `url`, which is the stored file's address on success and absent when the endpoint refused
      the upload (wrong verb, unknown user, no file, or a failed upload such as a file over
      10 MB all answer without one). */
  datatype Reply = Lost | Replied(url: ImageEntry)

  /** No upload was lost. */
  predicate NoneLost(replies: seq<Reply>) {
    forall k :: 0 <= k < |replies| ==> replies[k].Replied?
  }

  /** The entries the answered uploads write, in order; lost uploads write none. */
  function Entries(replies: seq<Reply>): (r: seq<ImageEntry>)
    decreases |replies|
    ensures |r| <= |replies|
    ensures forall k :: 0 <= k < |r| ==> Replied(r[k]) in replies
    ensures NoneLost(replies) ==> |r| == |replies| && forall k :: 0 <= k < |r| ==> replies[k] == Replied(r[k])
  {
    if replies == [] then []
    else
      var rest := Entries(replies[1..]);
      assert forall k :: 0 < k < |replies| ==> replies[k] == replies[1..][k - 1];
      assert NoneLost(replies) ==> NoneLost(replies[1..]);
      (if replies[0].Replied? then [replies[0].url] else []) + rest
  }

  /** The replies to the uploads of the files chosen from `files` for a list of `count` images,
      in the order the files were picked; `replyOf` stands for the upload endpoint. */
  function ChosenReplies<T>(files: seq<T>, count: nat, replyOf: T -> Reply): (r: seq<Reply>)
    ensures |r| == |FilesToUpload(files, count)|
    ensures forall k :: 0 <= k < |r| ==> r[k] == replyOf(files[k])
  {
    var chosen := FilesToUpload(files, count);
    seq(|chosen|, k requires 0 <= k < |chosen| => replyOf(chosen[k]))
  }

  /** The inline form's upload: each answer appends its `url` to the list as it then is, so
      every chosen file that is answered adds one entry, with or without an address (the
      answers are taken in the order the files were picked). */
  function AddUploads<T>(images: seq<ImageEntry>, files: seq<T>, replyOf: T -> Reply): (r: seq<ImageEntry>)
    ensures |images| <= |r| <= |images| + |FilesToUpload(files, |images|)|
    ensures r[..|images|] == images
    ensures |images| <= MaxFeaturedImages ==> |r| <= MaxFeaturedImages
    ensures forall k :: |images| <= k < |r| ==> Replied(r[k]) in ChosenReplies(files, |images|, replyOf)
    // When no upload is lost, each chosen file adds its answer's entry, in pick order.
    ensures NoneLost(ChosenReplies(files, |images|, replyOf)) ==>
              && |r| == |images| + |FilesToUpload(files, |images|)|
              && forall k :: |images| <= k < |r| ==> replyOf(files[k - |images|]) == Replied(r[k])
  {
    var replies := ChosenReplies(files, |images|, replyOf);
    var added := Entries(replies);
    assert forall k :: |images| <= k < |images| + |added| ==> (images + added)[k] == added[k - |images|];
    images + added
  }

  /** Some answer, among the positions `order` names, is from a chosen upload that was answered. */
  predicate AnyAnswer(replies: seq<Reply>, order: seq<nat>) {
    exists k :: 0 <= k < |order| && order[k] < |replies| && replies[order[k]].Replied?
  }

  /** The wizard's answers to an upload of several files. Each answer writes back `snapshot`,
      the list captured when the files were picked, plus its own `url`, replacing whatever the
      list was. `order` lists, in the order the uploads answer, positions in `replies`; a lost
      upload, or a position naming no chosen file, changes nothing. */
  function OverwriteAnswers(snapshot: seq<ImageEntry>, current: seq<ImageEntry>, replies: seq<Reply>,
                            order: seq<nat>): (r: seq<ImageEntry>)
    decreases |order|
    ensures r == current || (|r| == |snapshot| + 1 && r[..|snapshot|] == snapshot && Replied(r[|snapshot|]) in replies)
  {
    if order == [] then current
    else
      var next := if order[0] < |replies| && replies[order[0]].Replied?
                  then snapshot + [replies[order[0]].url] else current;
      OverwriteAnswers(snapshot, next, replies, order[1..])
  }

  /** Only the upload that answers last is kept, whether its answer carries an address or not. */
  lemma {:induction false} LastAnswerKept(snapshot: seq<ImageEntry>, current: seq<ImageEntry>,
                                          replies: seq<Reply>, order: seq<nat>)
    requires order != [] && order[|order| - 1] < |replies| && replies[order[|order| - 1]].Replied?
    decreases |order|
    ensures OverwriteAnswers(snapshot, current, replies, order)
            == snapshot + [replies[order[|order| - 1]].url]
  {
    if |order| > 1 {
      var next := if order[0] < |replies| && replies[order[0]].Replied?
                  then snapshot + [replies[order[0]].url] else current;
      assert order[1..][|order| - 2] == order[|order| - 1];
      LastAnswerKept(snapshot, next, replies, order[1..]);
    }
  }

  /** When every upload is lost, the list is left as it was. */
  lemma {:induction false} UnansweredKeepsList(snapshot: seq<ImageEntry>, current: seq<ImageEntry>,
                                               replies: seq<Reply>, order: seq<nat>)
    requires !AnyAnswer(replies, order)
    decreases |order|
    ensures OverwriteAnswers(snapshot, current, replies, order) == current
  {
    if order != [] {
      assert !(order[0] < |replies| && replies[order[0]].Replied?);
      assert !AnyAnswer(replies, order[1..]) by {
        forall k | 0 <= k < |order[1..]| ensures !(order[1..][k] < |replies| && replies[order[1..][k]].Replied?) {
          assert order[1..][k] == order[k + 1];
        }
      }
      UnansweredKeepsList(snapshot, current, replies, order[1..]);
    }
  }

  /** The wizard's upload of `files` onto `images`, with the answers in the order given. */
  function WizardUpload<T>(images: seq<ImageEntry>, files: seq<T>, replyOf: T -> Reply,
                           order: seq<nat>): (r: seq<ImageEntry>)
    ensures r == images || (|r| == |images| + 1 && r[..|images|] == images)
    ensures |images| <= MaxFeaturedImages ==> |r| <= MaxFeaturedImages
  {
    var replies := ChosenReplies(files, |images|, replyOf);
    // A full list chooses no file, so no upload answers.
    assert |images| == MaxFeaturedImages ==> OverwriteAnswers(images, images, replies, order) == images by {
      if |images| == MaxFeaturedImages {
        UnansweredKeepsList(images, images, replies, order);
      }
    }
    OverwriteAnswers(images, images, replies, order)
  }

  /** However many files a pick uploads, the wizard keeps only the entry of the upload that
      answers last: it ends with one new entry where the inline form's appending, when no upload
      is lost, ends with one per chosen file. */
  lemma WizardKeepsOneUpload<T>(images: seq<ImageEntry>, files: seq<T>, replyOf: T -> Reply,
                                order: seq<nat>)
    requires order != [] && order[|order| - 1] < |FilesToUpload(files, |images|)|
    requires replyOf(files[order[|order| - 1]]).Replied?
    ensures WizardUpload(images, files, replyOf, order)
            == images + [replyOf(files[order[|order| - 1]]).url]
    ensures NoneLost(ChosenReplies(files, |images|, replyOf)) ==>
              |AddUploads(images, files, replyOf)| - |WizardUpload(images, files, replyOf, order)|
              == |FilesToUpload(files, |images|)| - 1
  {
    LastAnswerKept(images, images, ChosenReplies(files, |images|, replyOf), order);
  }

  /** `s.filter((_, index) => index !== i)`. */
  function RemoveAt<T>(s: seq<T>, i: int): (r: seq<T>)
    decreases |s|
  {
    if s == [] then [] else (if i == 0 then [] else [s[0]]) + RemoveAt(s[1..], i - 1)
  }

  /** Removing by position deletes exactly that element and keeps the others in order; a
      position outside the list changes nothing. */
  lemma {:induction false} RemoveAtDeletes<T>(s: seq<T>, i: int)
    decreases |s|
    ensures 0 <= i < |s| ==> RemoveAt(s, i) == s[..i] + s[i + 1..]
    ensures !(0 <= i < |s|) ==> RemoveAt(s, i) == s
  {
    if s != [] {
      RemoveAtDeletes(s[1..], i - 1);
      if i == 0 {
        assert s[1..] == s[..0] + s[1..];
      } else if 0 < i < |s| {
        assert [s[0]] + (s[1..][..i - 1] + s[1..][i..]) == s[..i] + s[i + 1..];
      } else {
        assert [s[0]] + s[1..] == s;
      }
    }
  }
}
