/** The image-to-video job of the bridge (generate_video): one submit
    request, then at most MAX_POLLS polls of the job's result. The HTTP calls,
    the file write and the clock are replaced by the replies they give. */
module VideoJob {
  import opened Wrappers
  import opened Paths

  /** `for i in range(30)`. */
  const MAX_POLLS: nat := 30

  const STATUS_OK: int := 200

  /** The job is still running. */
  const STATUS_PENDING: int := 202

  /** What an HTTP call gave back: a status code, or an exception (a failed
      connection, an unreadable file to upload, a reply body that is not
      JSON where one is parsed). */
  datatype HttpReply = Reply(status: int) | Raised

  /** The replies of the result endpoint, one per poll; it answers every poll
      the loop can make. */
  type PollReplies = s: seq<HttpReply> | MAX_POLLS <= |s| witness seq(MAX_POLLS, _ => Raised)

  /** SUCCEEDED with the saved file, FAILED, or TIMED_OUT. */
  datatype JobState = Succeeded(path: AbsPath) | Failed | TimedOut

  /** Where the job ended and how many polls it made on the way. */
  datatype Outcome = Outcome(state: JobState, polls: nat)

  /** Polls `lo` up to `hi` all said "still processing". */
  predicate AllPending(polls: PollReplies, lo: nat, hi: nat)
    requires lo <= hi <= |polls|
  {
    forall j :: lo <= j < hi ==> polls[j] == Reply(STATUS_PENDING)
  }

  /** The polling state, entered at attempt `i`. `video` is where the result
      is saved, or None when writing it raises. */
  function Polling(polls: PollReplies, i: nat, video: Option<AbsPath>): (o: Outcome)
    requires i <= MAX_POLLS
    ensures i <= o.polls <= MAX_POLLS
    ensures o.state.TimedOut? ==> o.polls == MAX_POLLS
    decreases MAX_POLLS - i
  {
    if i == MAX_POLLS then Outcome(TimedOut, MAX_POLLS)
    else if polls[i] == Reply(STATUS_PENDING) then Polling(polls, i + 1, video)
    else if polls[i] == Reply(STATUS_OK) then
      Outcome(if video.Some? then Succeeded(video.value) else Failed, i + 1)
    else Outcome(Failed, i + 1)
  }

  /** The whole job: anything but a 200 for the submit request fails at once. */
  function Job(submit: HttpReply, polls: PollReplies, video: Option<AbsPath>): (o: Outcome)
    ensures o.polls <= MAX_POLLS
  {
    if submit == Reply(STATUS_OK) then Polling(polls, 0, video) else Outcome(Failed, 0)
  }

  /** The string generate_video returns for a final state. */
  function ResultPath(state: JobState): (p: string)
    ensures p == NONE <==> !state.Succeeded?
    ensures p != NONE ==> IsAbsolute(p)
  {
    NoneIsNotAbsolute();
    if state.Succeeded? then state.path else NONE
  }

  /** generate_video(image_path), lines 69-130 of the bridge: the returned
      path and the number of polls made are those of the state machine. */
  method GenerateVideo(submit: HttpReply, polls: PollReplies, video: Option<AbsPath>)
    returns (videoPath: string, pollsMade: nat)
    ensures videoPath == ResultPath(Job(submit, polls, video).state)
    ensures pollsMade == Job(submit, polls, video).polls
  {
    if submit != Reply(STATUS_OK) {
      return NONE, 0;
    }
    for i := 0 to MAX_POLLS
      invariant Polling(polls, i, video) == Polling(polls, 0, video)
    {
      var res := polls[i];
      if res == Reply(STATUS_PENDING) {
        continue;
      } else if res == Reply(STATUS_OK) {
        if video.Some? {
          return video.value, i + 1;
        }
        return NONE, i + 1;
      } else {
        return NONE, i + 1;
      }
    }
    return NONE, MAX_POLLS;
  }

  /** Polls that keep saying "still processing" are skipped over. */
  lemma {:induction false} SkipPending(polls: PollReplies, i: nat, k: nat, video: Option<AbsPath>)
    requires i <= k <= MAX_POLLS
    requires AllPending(polls, i, k)
    ensures Polling(polls, i, video) == Polling(polls, k, video)
    decreases k - i
  {
    if i < k {
      SkipPending(polls, i + 1, k, video);
    }
  }

  /** A submit reply other than 200 returns "none" and makes no poll. */
  lemma SubmitRejected(submit: HttpReply, polls: PollReplies, video: Option<AbsPath>)
    requires submit != Reply(STATUS_OK)
    ensures Job(submit, polls, video) == Outcome(Failed, 0)
    ensures ResultPath(Job(submit, polls, video).state) == NONE
  {
  }

  /** k "still processing" replies and then a 200: the saved path, after
      exactly k + 1 polls. */
  lemma SucceedsAfterPending(polls: PollReplies, k: nat, path: AbsPath)
    requires k < MAX_POLLS
    requires AllPending(polls, 0, k) && polls[k] == Reply(STATUS_OK)
    ensures Job(Reply(STATUS_OK), polls, Some(path)) == Outcome(Succeeded(path), k + 1)
    ensures ResultPath(Job(Reply(STATUS_OK), polls, Some(path)).state) == path
  {
    SkipPending(polls, 0, k, Some(path));
  }

  /** The first reply that is neither 202 nor 200 ends the job with "none",
      and no poll follows it. */
  lemma FailsAtUnexpected(polls: PollReplies, k: nat, video: Option<AbsPath>)
    requires k < MAX_POLLS
    requires AllPending(polls, 0, k)
    requires polls[k] != Reply(STATUS_PENDING) && polls[k] != Reply(STATUS_OK)
    ensures Job(Reply(STATUS_OK), polls, video) == Outcome(Failed, k + 1)
  {
    SkipPending(polls, 0, k, video);
  }

  /** Thirty "still processing" replies time the job out, after thirty polls. */
  lemma TimesOut(polls: PollReplies, video: Option<AbsPath>)
    requires AllPending(polls, 0, MAX_POLLS)
    ensures Job(Reply(STATUS_OK), polls, video) == Outcome(TimedOut, MAX_POLLS)
    ensures ResultPath(Job(Reply(STATUS_OK), polls, video).state) == NONE
  {
    SkipPending(polls, 0, MAX_POLLS, video);
  }

  /** The job succeeds exactly when the submit got a 200, some poll within
      the budget got a 200 after nothing but 202s, and the video was saved. */
  lemma {:induction false} SucceedsOnlyThus(polls: PollReplies, i: nat, video: Option<AbsPath>)
    requires i <= MAX_POLLS
    ensures Polling(polls, i, video).state.Succeeded? <==>
      video.Some? &&
      exists k :: i <= k < MAX_POLLS && AllPending(polls, i, k) && polls[k] == Reply(STATUS_OK)
    decreases MAX_POLLS - i
  {
    if i < MAX_POLLS {
      SucceedsOnlyThus(polls, i + 1, video);
      if polls[i] == Reply(STATUS_PENDING) {
        if video.Some? && exists k :: i + 1 <= k < MAX_POLLS && AllPending(polls, i + 1, k) && polls[k] == Reply(STATUS_OK) {
          var k :| i + 1 <= k < MAX_POLLS && AllPending(polls, i + 1, k) && polls[k] == Reply(STATUS_OK);
          assert AllPending(polls, i, k);
        }
        if exists k :: i <= k < MAX_POLLS && AllPending(polls, i, k) && polls[k] == Reply(STATUS_OK) {
          var k :| i <= k < MAX_POLLS && AllPending(polls, i, k) && polls[k] == Reply(STATUS_OK);
          assert k != i;
          assert AllPending(polls, i + 1, k);
        }
      } else {
        assert AllPending(polls, i, i);
        forall k | i < k < MAX_POLLS ensures !AllPending(polls, i, k) {
          assert polls[i] != Reply(STATUS_PENDING);
        }
      }
    }
  }
}
