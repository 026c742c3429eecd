/**
 * `upload_screenshots`: a poller that waits for pending image upload jobs,
 * and `process_job`, which uploads a job's Street View and satellite
 * screenshots at three sizes each and records them.  Image decoding,
 * resizing and the object store are oracles; the poller sees only how many
 * jobs are pending at each check.
 */
module ScreenshotUpload {
  import opened Wrappers

  // ---------------------------------------------------------------------------
  // The poller in `Command.handle`

  /** The poller's `sleep_time`, `num_checks`, and the sleeps taken so far. */
  datatype Poll = Poll(sleepTime: nat, numChecks: nat, slept: seq<nat>)

  const FastChecks: nat := 600
  const MediumChecks: nat := 720

  /**
   * One iteration of `while True`: pending jobs reset the schedule; an empty
   * check sleeps, counts, and after 600 one-second checks moves to five
   * seconds, after 720 five-second checks to ten.
   */
  function PollStep(s: Poll, pending: nat): Poll
  {
    if pending > 0 then Poll(1, 0, s.slept)
    else
      var slept := s.slept + [s.sleepTime];
      var n := s.numChecks + 1;
      if s.sleepTime == 1 && n == FastChecks then Poll(5, 0, slept)
      else if s.sleepTime == 5 && n == MediumChecks then Poll(10, 0, slept)
      else Poll(s.sleepTime, n, slept)
  }

  const PollStart := Poll(1, 0, [])

  /** The poller after the checks whose pending counts are `pending`. */
  function PollAfter(pending: seq<nat>): Poll
    decreases |pending|
  {
    if pending == [] then PollStart else PollStep(PollAfter(pending[..|pending| - 1]), pending[|pending| - 1])
  }

  /** The loop of `handle` over the pending counts its checks found. */
  method Handle(pending: seq<nat>) returns (s: Poll)
    ensures s == PollAfter(pending)
  {
    var sleepTime, numChecks := 1, 0;
    var slept: seq<nat> := [];
    var i := 0;
    while i < |pending|
      invariant 0 <= i <= |pending|
      invariant Poll(sleepTime, numChecks, slept) == PollAfter(pending[..i])
    {
      assert pending[..i + 1][..i] == pending[..i];
      if pending[i] > 0 {
        sleepTime := 1;
        numChecks := 0;
      } else {
        slept := slept + [sleepTime];
        numChecks := numChecks + 1;
        if sleepTime == 1 && numChecks == FastChecks {
          sleepTime := 5;
          numChecks := 0;
        } else if sleepTime == 5 && numChecks == MediumChecks {
          sleepTime := 10;
          numChecks := 0;
        }
      }
      i := i + 1;
    }
    assert pending[..i] == pending;
    s := Poll(sleepTime, numChecks, slept);
  }

  /** The schedule's invariant: 1, 5 or 10 seconds, below the threshold of the current regime. */
  predicate Schedule(s: Poll)
  {
    (s.sleepTime == 1 && s.numChecks < FastChecks) ||
    (s.sleepTime == 5 && s.numChecks < MediumChecks) ||
    s.sleepTime == 10
  }

  /** Every sleep is 1, 5 or 10 seconds. */
  predicate SleepsValid(slept: seq<nat>)
  {
    forall k | 0 <= k < |slept| :: slept[k] == 1 || slept[k] == 5 || slept[k] == 10
  }

  lemma StepKeepsSchedule(s: Poll, pending: nat)
    requires Schedule(s) && SleepsValid(s.slept)
    ensures Schedule(PollStep(s, pending)) && SleepsValid(PollStep(s, pending).slept)
  {
  }

  lemma {:induction false} ScheduleAlways(pending: seq<nat>)
    ensures Schedule(PollAfter(pending)) && SleepsValid(PollAfter(pending).slept)
    decreases |pending|
  {
    if pending != [] {
      ScheduleAlways(pending[..|pending| - 1]);
      StepKeepsSchedule(PollAfter(pending[..|pending| - 1]), pending[|pending| - 1]);
    }
  }

  /** `k` empty checks in a row. */
  function Idle(s: Poll, k: nat): Poll
  {
    if k == 0 then s else PollStep(Idle(s, k - 1), 0)
  }

  function Repeat(x: nat, k: nat): (r: seq<nat>)
    ensures |r| == k
  {
    if k == 0 then [] else Repeat(x, k - 1) + [x]
  }

  function Sum(s: seq<nat>): nat
  {
    if s == [] then 0 else Sum(s[..|s| - 1]) + s[|s| - 1]
  }

  /** Below the threshold, empty checks only count and sleep the current time. */
  lemma {:induction false} IdleCounts(t: nat, j: nat, slept: seq<nat>, k: nat)
    requires (t == 1 && j + k < FastChecks) || (t == 5 && j + k < MediumChecks) || t == 10
    ensures Idle(Poll(t, j, slept), k) == Poll(t, j + k, slept + Repeat(t, k))
  {
    if k > 0 {
      IdleCounts(t, j, slept, k - 1);
      assert slept + Repeat(t, k - 1) + [t] == slept + Repeat(t, k);
    }
  }

  /** 600 empty one-second checks switch to five seconds: ten idle minutes. */
  lemma SwitchToFive(slept: seq<nat>)
    ensures Idle(Poll(1, 0, slept), FastChecks) == Poll(5, 0, slept + Repeat(1, FastChecks))
    ensures Sum(Repeat(1, FastChecks)) == 600
  {
    IdleCounts(1, 0, slept, FastChecks - 1);
    assert slept + Repeat(1, FastChecks - 1) + [1] == slept + Repeat(1, FastChecks);
    SumRepeat(1, FastChecks);
  }

  /** 720 empty five-second checks switch to ten seconds: an idle hour more. */
  lemma SwitchToTen(slept: seq<nat>)
    ensures Idle(Poll(5, 0, slept), MediumChecks) == Poll(10, 0, slept + Repeat(5, MediumChecks))
    ensures Sum(Repeat(5, MediumChecks)) == 3600
  {
    IdleCounts(5, 0, slept, MediumChecks - 1);
    assert slept + Repeat(5, MediumChecks - 1) + [5] == slept + Repeat(5, MediumChecks);
    SumRepeat(5, MediumChecks);
  }

  lemma {:induction false} SumRepeat(x: nat, k: nat)
    ensures Sum(Repeat(x, k)) == x * k
  {
    if k > 0 {
      SumRepeat(x, k - 1);
      assert Repeat(x, k)[..k - 1] == Repeat(x, k - 1);
    }
  }

  /** Ten seconds is the last regime: empty checks never leave it. */
  lemma TenIsFinal(j: nat, slept: seq<nat>, k: nat)
    ensures Idle(Poll(10, j, slept), k).sleepTime == 10
  {
    IdleCounts(10, j, slept, k);
  }

  // ---------------------------------------------------------------------------
  // `process_job`

  datatype JobStatus = Pending | InProgress | Done | Failed

  /** A decoded screenshot. */
  datatype Image = Image(pixels: seq<int>)

  /**
   * `parse_data_uri` with `Image.open` and the RGB conversion (`None` when
   * they raise), `thumbnail`, and the object store's upload (`false` when it
   * raises).
   */
  datatype Imaging = Imaging(
    decode: string -> Option<Image>,
    thumbnail: (Image, nat) -> Image,
    upload: (string, Image) -> bool)

  /** What reaches the object store and the database: an uploaded object, or an image record. */
  datatype Effect = Uploaded(key: string, image: Image) | Recorded(imageType: string, uuid: string)

  const ImageSizes: seq<(string, nat)> := [("l", 1200), ("m", 700), ("s", 300)]
  const ImageTypes: seq<string> := ["streetview", "satellite"]

  function ScreenshotKey(imageType: string, format: string, uuid: string): string
  {
    "screenshots/" + imageType + "/" + format + "/" + uuid + ".jpg"
  }

  /** The two uuids of a job, one per image type. */
  datatype Uuids = Uuids(streetview: string, satellite: string)

  function UuidOf(u: Uuids, imageType: string): string
  {
    if imageType == "streetview" then u.streetview else u.satellite
  }

  /** A data URI that is not `None` or empty. */
  predicate Truthy(v: Option<string>)
  {
    v.Some? && v.value != ""
  }

  /** The uploads of the first `k` sizes of one image, each a thumbnail of the last; `ok` is false once one fails. */
  datatype Sized = Sized(ok: bool, image: Image, effects: seq<Effect>)

  function SizesFirst(img: Image, imageType: string, uuid: string, k: nat, im: Imaging): Sized
    requires k <= |ImageSizes|
  {
    if k == 0 then Sized(true, img, [])
    else
      var p := SizesFirst(img, imageType, uuid, k - 1, im);
      if !p.ok then p
      else
        var (format, size) := ImageSizes[k - 1];
        var small := im.thumbnail(p.image, size);
        var key := ScreenshotKey(imageType, format, uuid);
        if im.upload(key, small) then Sized(true, small, p.effects + [Uploaded(key, small)])
        else Sized(false, small, p.effects)
  }

  /** The job after its first `k` image types: whether all went well, the `image` variable, and the effects. */
  datatype Progress = Progress(ok: bool, image: Option<Image>, effects: seq<Effect>)

  /**
   * The image to upload for a type: its data URI decoded, or, when the URI
   * is empty, whatever `image` still holds.  A missing key, a failed decode,
   * or an empty URI with no image yet (an unbound variable) raises.
   */
  function Source(jobData: map<string, Option<string>>, imageType: string, prev: Option<Image>, im: Imaging): Option<Image>
  {
    if imageType !in jobData then None
    else if Truthy(jobData[imageType]) then im.decode(jobData[imageType].value)
    else prev
  }

  function TypesFirst(jobData: map<string, Option<string>>, uuids: Uuids, k: nat, im: Imaging): Progress
    requires k <= |ImageTypes|
  {
    if k == 0 then Progress(true, None, [])
    else
      var p := TypesFirst(jobData, uuids, k - 1, im);
      if !p.ok then p
      else
        var t := ImageTypes[k - 1];
        match Source(jobData, t, p.image, im)
        case None => Progress(false, p.image, p.effects)
        case Some(img) =>
          var s := SizesFirst(img, t, UuidOf(uuids, t), |ImageSizes|, im);
          if s.ok then Progress(true, Some(s.image), p.effects + s.effects + [Recorded(t, UuidOf(uuids, t))])
          else Progress(false, Some(s.image), p.effects + s.effects)
  }

  /** An upload job: its status and (large) `job_data`, and the statuses saved so far. */
  class UploadJob {
    var status: JobStatus
    var jobData: map<string, Option<string>>
    var saved: seq<JobStatus>

    constructor (jobData: map<string, Option<string>>)
      ensures status == Pending && this.jobData == jobData && saved == []
    {
      status := Pending;
      this.jobData := jobData;
      saved := [];
    }

    /** `job.save()`. */
    method Save()
      modifies this
      ensures saved == old(saved) + [status] && status == old(status) && jobData == old(jobData)
    {
      saved := saved + [status];
    }
  }

  /**
   * `process_job`: marked in progress first; then both image types in order,
   * each at sizes l, m, s and recorded once all three are uploaded; done with
   * its data cleared, or failed with its data kept.  The `return` in
   * `finally` makes the result 1 either way.
   */
  method ProcessJob(job: UploadJob, uuids: Uuids, im: Imaging) returns (ret: int, effects: seq<Effect>)
    modifies job
    ensures ret == 1
    ensures effects == TypesFirst(old(job.jobData), uuids, |ImageTypes|, im).effects
    ensures TypesFirst(old(job.jobData), uuids, |ImageTypes|, im).ok ==> job.status == Done && job.jobData == map[]
    ensures !TypesFirst(old(job.jobData), uuids, |ImageTypes|, im).ok ==> job.status == Failed && job.jobData == old(job.jobData)
    ensures job.saved == old(job.saved) + [InProgress, job.status]
  {
    job.status := InProgress;
    job.Save();
    var data := job.jobData;
    var image: Option<Image> := None;
    var ok := true;
    effects := [];
    var k := 0;
    while k < |ImageTypes| && ok
      invariant 0 <= k <= |ImageTypes|
      invariant Progress(ok, image, effects) == TypesFirst(data, uuids, k, im)
      invariant !ok ==> TypesFirst(data, uuids, k, im) == TypesFirst(data, uuids, |ImageTypes|, im)
      invariant job.jobData == data && job.status == InProgress && job.saved == old(job.saved) + [InProgress]
    {
      var t := ImageTypes[k];
      var src := Source(data, t, image, im);
      if src.None? {
        ok := false;
      } else {
        var s := UploadSizes(src.value, t, UuidOf(uuids, t), im);
        image := Some(s.image);
        effects := effects + s.effects;
        if s.ok {
          effects := effects + [Recorded(t, UuidOf(uuids, t))];
        } else {
          ok := false;
        }
      }
      k := k + 1;
      if !ok {
        FailureIsFinal(data, uuids, k, im);
      }
    }
    if ok {
      job.status := Done;
      job.jobData := map[];
    } else {
      job.status := Failed;
    }
    job.Save();
    ret := 1;
  }

  /** The inner loop over `IMAGE_SIZES` for one image. */
  method UploadSizes(img: Image, imageType: string, uuid: string, im: Imaging) returns (s: Sized)
    ensures s == SizesFirst(img, imageType, uuid, |ImageSizes|, im)
  {
    s := Sized(true, img, []);
    var k := 0;
    while k < |ImageSizes| && s.ok
      invariant 0 <= k <= |ImageSizes|
      invariant s == SizesFirst(img, imageType, uuid, k, im)
      invariant !s.ok ==> s == SizesFirst(img, imageType, uuid, |ImageSizes|, im)
    {
      var (format, size) := ImageSizes[k];
      var small := im.thumbnail(s.image, size);
      var key := ScreenshotKey(imageType, format, uuid);
      if im.upload(key, small) {
        s := Sized(true, small, s.effects + [Uploaded(key, small)]);
      } else {
        s := Sized(false, small, s.effects);
      }
      k := k + 1;
      if !s.ok {
        SizeFailureIsFinal(img, imageType, uuid, k, im);
      }
    }
  }

  lemma {:induction false} SizeFailureIsFinal(img: Image, imageType: string, uuid: string, k: nat, im: Imaging)
    requires k <= |ImageSizes| && !SizesFirst(img, imageType, uuid, k, im).ok
    ensures SizesFirst(img, imageType, uuid, |ImageSizes|, im) == SizesFirst(img, imageType, uuid, k, im)
    decreases |ImageSizes| - k
  {
    if k < |ImageSizes| {
      SizeFailureIsFinal(img, imageType, uuid, k + 1, im);
    }
  }

  lemma {:induction false} FailureIsFinal(jobData: map<string, Option<string>>, uuids: Uuids, k: nat, im: Imaging)
    requires k <= |ImageTypes| && !TypesFirst(jobData, uuids, k, im).ok
    ensures TypesFirst(jobData, uuids, |ImageTypes|, im) == TypesFirst(jobData, uuids, k, im)
    decreases |ImageTypes| - k
  {
    if k < |ImageTypes| {
      FailureIsFinal(jobData, uuids, k + 1, im);
    }
  }

  /** The uploads of one image that went through: l, m, s in order under its uuid, each a thumbnail of the one before. */
  predicate UploadsOf(e: seq<Effect>, imageType: string, uuid: string)
  {
    |e| == |ImageSizes| &&
    forall j | 0 <= j < |ImageSizes| :: e[j].Uploaded? && e[j].key == ScreenshotKey(imageType, ImageSizes[j].0, uuid)
  }

  lemma {:induction false} SizesUploaded(img: Image, imageType: string, uuid: string, k: nat, im: Imaging)
    requires k <= |ImageSizes|
    ensures var s := SizesFirst(img, imageType, uuid, k, im);
      |s.effects| <= k && (s.ok ==> |s.effects| == k) &&
      forall j | 0 <= j < |s.effects| :: s.effects[j].Uploaded? && s.effects[j].key == ScreenshotKey(imageType, ImageSizes[j].0, uuid)
  {
    if k > 0 {
      SizesUploaded(img, imageType, uuid, k - 1, im);
    }
  }

  /**
   * A job that went through uploaded l, m, s of the Street View image and
   * recorded it, then the same for the satellite image, each type under its
   * own uuid.
   */
  lemma SuccessEffects(jobData: map<string, Option<string>>, uuids: Uuids, im: Imaging)
    requires TypesFirst(jobData, uuids, |ImageTypes|, im).ok
    ensures var e := TypesFirst(jobData, uuids, |ImageTypes|, im).effects;
      |e| == 8 &&
      UploadsOf(e[..3], "streetview", uuids.streetview) && e[3] == Recorded("streetview", uuids.streetview) &&
      UploadsOf(e[4..7], "satellite", uuids.satellite) && e[7] == Recorded("satellite", uuids.satellite)
  {
    assert |ImageTypes| == 2 && ImageTypes[0] == "streetview" && ImageTypes[1] == "satellite";
    var p1 := TypesFirst(jobData, uuids, 1, im);
    assert TypesFirst(jobData, uuids, 0, im) == Progress(true, None, []);
    assert UuidOf(uuids, "streetview") == uuids.streetview && UuidOf(uuids, "satellite") == uuids.satellite;
    assert p1.ok && Source(jobData, "satellite", p1.image, im).Some?;
    var img1 := Source(jobData, "streetview", None, im).value;
    SizesUploaded(img1, "streetview", uuids.streetview, 3, im);
    var img2 := Source(jobData, "satellite", p1.image, im).value;
    SizesUploaded(img2, "satellite", uuids.satellite, 3, im);
    var s1 := SizesFirst(img1, "streetview", uuids.streetview, 3, im).effects;
    var s2 := SizesFirst(img2, "satellite", uuids.satellite, 3, im).effects;
    assert p1.effects == s1 + [Recorded("streetview", uuids.streetview)];
    var e := TypesFirst(jobData, uuids, |ImageTypes|, im).effects;
    assert e == s1 + [Recorded("streetview", uuids.streetview)] + s2 + [Recorded("satellite", uuids.satellite)];
    assert e[..3] == s1 && e[4..7] == s2;
  }

  /** Every record comes right after three uploads of its type under its uuid. */
  predicate RecordsFollow(e: seq<Effect>)
  {
    forall j | 0 <= j < |e| :: e[j].Recorded? ==> j >= 3 && UploadsOf(e[j - 3..j], e[j].imageType, e[j].uuid)
  }

  /**
   * All or nothing per type: a record is only ever saved right after the
   * three uploads of its image under the same uuid, failed job or not.
   */
  lemma {:induction false} RecordsFollowUploads(jobData: map<string, Option<string>>, uuids: Uuids, k: nat, im: Imaging)
    requires k <= |ImageTypes|
    ensures RecordsFollow(TypesFirst(jobData, uuids, k, im).effects)
  {
    if k > 0 {
      RecordsFollowUploads(jobData, uuids, k - 1, im);
      var p := TypesFirst(jobData, uuids, k - 1, im);
      var t := ImageTypes[k - 1];
      if p.ok && Source(jobData, t, p.image, im).Some? {
        var img := Source(jobData, t, p.image, im).value;
        SizesUploaded(img, t, UuidOf(uuids, t), |ImageSizes|, im);
        var s := SizesFirst(img, t, UuidOf(uuids, t), |ImageSizes|, im);
        if s.ok {
          AppendRecord(p.effects, s.effects, t, UuidOf(uuids, t));
        } else {
          AppendUploads(p.effects, s.effects);
        }
      }
    }
  }

  /** Only uploads, no record. */
  predicate NoRecords(e: seq<Effect>)
  {
    forall j | 0 <= j < |e| :: e[j].Uploaded?
  }

  lemma AppendUploads(e1: seq<Effect>, e2: seq<Effect>)
    requires RecordsFollow(e1) && NoRecords(e2)
    ensures RecordsFollow(e1 + e2)
  {
    var e := e1 + e2;
    forall j | 0 <= j < |e| ensures e[j].Recorded? ==> j >= 3 && UploadsOf(e[j - 3..j], e[j].imageType, e[j].uuid) {
      if j < |e1| {
        assert e[j] == e1[j];
        if j >= 3 {
          assert e[j - 3..j] == e1[j - 3..j];
        }
      } else {
        assert e[j] == e2[j - |e1|];
      }
    }
  }

  lemma AppendRecord(e1: seq<Effect>, u: seq<Effect>, t: string, uuid: string)
    requires RecordsFollow(e1) && UploadsOf(u, t, uuid)
    ensures RecordsFollow(e1 + u + [Recorded(t, uuid)])
  {
    AppendUploads(e1, u);
    var e0 := e1 + u;
    var e := e0 + [Recorded(t, uuid)];
    forall j | 0 <= j < |e| ensures e[j].Recorded? ==> j >= 3 && UploadsOf(e[j - 3..j], e[j].imageType, e[j].uuid) {
      if j < |e0| {
        assert e[j] == e0[j];
        if j >= 3 {
          assert e[j - 3..j] == e0[j - 3..j];
        }
      } else {
        assert e[j - 3..j] == u;
      }
    }
  }

  /** A job without a Street View data URI fails before any upload. */
  lemma MissingStreetviewFails(jobData: map<string, Option<string>>, uuids: Uuids, im: Imaging)
    requires "streetview" in jobData ==> !Truthy(jobData["streetview"])
    ensures !TypesFirst(jobData, uuids, |ImageTypes|, im).ok
    ensures TypesFirst(jobData, uuids, |ImageTypes|, im).effects == []
  {
    assert |ImageTypes| == 2 && ImageTypes[0] == "streetview";
    assert !TypesFirst(jobData, uuids, 1, im).ok;
    FailureIsFinal(jobData, uuids, 1, im);
  }

  /**
   * An empty satellite data URI does not fail the job: the satellite sizes
   * are cut from the Street View image as its last thumbnail left it.
   */
  lemma EmptySatelliteReusesStreetview(jobData: map<string, Option<string>>, uuids: Uuids, im: Imaging)
    requires "satellite" in jobData && !Truthy(jobData["satellite"])
    requires TypesFirst(jobData, uuids, 1, im).ok
    ensures var p := TypesFirst(jobData, uuids, 1, im);
      p.image.Some? && Source(jobData, "satellite", p.image, im) == p.image
  {
  }
}
