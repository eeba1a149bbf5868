/**
  The video handler of `Scripts/video_handler.py`: the output-path rule of
  `_init_writer`, and the capture and writer as abstract state (the frames a
  capture will deliver, the frames written so far, how often it was released).
 */
module Video {
  import opened Tracks

  /** What `_init_writer` appends to the stem of the input path. */
  const TrackedSuffix: string := "_tracked.mp4"

  /** The position of the last `c` in `s`, if `s` contains one. */
  function LastIndexOf(s: string, c: char): (r: Option<nat>)
    ensures r.None? <==> c !in s
    ensures r.Some? ==> r.value < |s| && s[r.value] == c && c !in s[r.value + 1..]
  {
    if |s| == 0 then None
    else if s[|s| - 1] == c then Some(|s| - 1)
    else
      var r := LastIndexOf(s[..|s| - 1], c);
      assert s == s[..|s| - 1] + [s[|s| - 1]];
      if r.Some? then
        assert s[r.value + 1..] == s[..|s| - 1][r.value + 1..] + [s[|s| - 1]];
        r
      else r
  }

  /**
    `s.rsplit('.', 1)[0]`: the part of `s` before its last dot, or all of `s`
    when it has none (so only the final `.suffix` is removed).
   */
  function StemBeforeLastDot(s: string): (r: string)
    ensures r <= s
    ensures '.' !in s ==> r == s
    ensures '.' in s ==> |r| < |s| && s[|r|] == '.' && '.' !in s[|r| + 1..]
  {
    match LastIndexOf(s, '.')
    case None => s
    case Some(i) => s[..i]
  }

  /** `input_path.rsplit('.', 1)[0] + '_tracked.mp4'`. */
  function OutputPath(inputPath: string): string {
    StemBeforeLastDot(inputPath) + TrackedSuffix
  }

  /**
    The output path always ends in `_tracked.mp4`; what precedes it is the
    input with its last `.suffix` removed: without a dot that is the whole
    input, and otherwise the removed tail starts at a dot and holds no other dot.
   */
  lemma OutputPathShape(inputPath: string)
    ensures var r := OutputPath(inputPath);
      && |r| >= |TrackedSuffix|
      && r[|r| - |TrackedSuffix|..] == TrackedSuffix
    ensures var stem := OutputPath(inputPath)[..|OutputPath(inputPath)| - |TrackedSuffix|];
      && stem <= inputPath
      && ('.' !in inputPath ==> stem == inputPath)
      && ('.' in inputPath ==>
            var tail := inputPath[|stem|..];
            && inputPath == stem + tail
            && |tail| > 0 && tail[0] == '.' && '.' !in tail[1..])
  {
    var stem := StemBeforeLastDot(inputPath);
    var r := OutputPath(inputPath);
    assert r[..|r| - |TrackedSuffix|] == stem;
    assert r[|r| - |TrackedSuffix|..] == TrackedSuffix;
    if '.' in inputPath {
      assert inputPath == stem + inputPath[|stem|..];
      assert inputPath[|stem|..][1..] == inputPath[|stem| + 1..];
    }
  }

  /** Only the final suffix goes: `a.b.mp4` gives `a.b_tracked.mp4`. */
  lemma LastDotExample()
    ensures OutputPath("a.b.mp4") == "a.b_tracked.mp4"
  {
    assert StemBeforeLastDot("a.b.mp4") == "a.b" by {
      assert "a.b.mp4"[..6] == "a.b.mp";
      assert "a.b.mp"[..5] == "a.b.m";
      assert "a.b.m"[..4] == "a.b.";
      assert LastIndexOf("a.b.mp4", '.') == Some(3);
      assert "a.b.mp4"[..3] == "a.b";
    }
  }

  /** A frame image, known only by its position in the capture. */
  datatype Frame = Frame(index: nat)

  /** One result of `cap.read()`: the success flag and the image. */
  datatype CaptureRead = CaptureRead(success: bool, frame: Frame)

  /** A written frame: the detector's plot of `frame` with the given trails drawn on it. */
  datatype AnnotatedFrame = AnnotatedFrame(frame: Frame, trails: History)

  class VideoHandler {
    /** The path the writer was opened with. */
    const outputPath: string
    /** `cap.isOpened()`; nothing this model does closes the capture before `release`. */
    const isOpened: bool
    /** What successive `cap.read()` calls deliver; past its end a read fails. */
    const capture: seq<CaptureRead>
    /** The number of reads made so far. */
    var position: nat
    /** The frames handed to `out.write`, in order. */
    var written: seq<AnnotatedFrame>
    /** The number of `release()` calls. */
    var releases: nat

    constructor (inputPath: string, isOpened: bool, capture: seq<CaptureRead>)
      ensures outputPath == OutputPath(inputPath)
      ensures this.isOpened == isOpened && this.capture == capture
      ensures position == 0 && written == [] && releases == 0
    {
      outputPath := OutputPath(inputPath);
      this.isOpened := isOpened;
      this.capture := capture;
      position, written, releases := 0, [], 0;
    }

    /** The reads still to come. */
    function Pending(): seq<CaptureRead>
      reads this
    {
      if position <= |capture| then capture[position..] else []
    }

    method ReadFrame() returns (success: bool, frame: Frame)
      modifies this`position
      ensures position == old(position) + 1
      ensures success <==> old(Pending()) != [] && old(Pending())[0].success
      ensures success ==> frame == old(Pending())[0].frame
    {
      if position < |capture| {
        success, frame := capture[position].success, capture[position].frame;
      } else {
        success, frame := false, Frame(0);
      }
      position := position + 1;
    }

    method WriteFrame(f: AnnotatedFrame)
      modifies this`written
      ensures written == old(written) + [f]
    {
      written := written + [f];
    }

    method Release()
      modifies this`releases
      ensures releases == old(releases) + 1
    {
      releases := releases + 1;
    }
  }
}
