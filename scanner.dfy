/** The scan-session state of app.js: the module-level handles `stream`,
    `codeReader` and `scanning`, their guarded teardown `stopCamera`, and the
    ISBN gate of the decode callback, which tears the session down before it
    starts a lookup. Calls into the browser and the barcode library (the
    reader's `reset()`, a track's `stop()`, starting the lookup) are recorded
    as effects, in the order app.js performs them. */
module Scanner {
  import opened Wrappers
  import Isbn

  /** A track of a camera `MediaStream`; the id only tells tracks apart. */
  datatype Track = Track(id: nat)

  /** A camera stream as `getUserMedia` hands it over: its tracks. */
  datatype MediaStream = MediaStream(tracks: seq<Track>)

  /** A barcode reader instance; the id only tells instances apart. */
  datatype CodeReader = CodeReader(id: nat)

  /** A call the session logic makes on a collaborator. */
  datatype Effect =
    | ReaderReset(reader: CodeReader)
    | TrackStopped(track: Track)
    | LookupStarted(isbn: string)

  /** The three module-level variables, plus every effect performed so far. */
  datatype Session = Session(
    stream: Option<MediaStream>,
    codeReader: Option<CodeReader>,
    scanning: bool,
    effects: seq<Effect>)

  /** The state app.js starts in: both handles `null`, not scanning. */
  function Initial(): (s: Session)
    ensures s.stream.None? && s.codeReader.None? && !s.scanning && s.effects == []
  {
    Session(None, None, false, [])
  }

  /** `tracks.forEach(t => t.stop())`: one stop per track, in order. */
  function TrackStops(tracks: seq<Track>): (e: seq<Effect>)
    ensures |e| == |tracks|
    ensures forall i :: 0 <= i < |e| ==> e[i] == TrackStopped(tracks[i])
  {
    seq(|tracks|, i requires 0 <= i < |tracks| => TrackStopped(tracks[i]))
  }

  /** The effects of the reader half of `stopCamera`. */
  function ResetEffects(reader: Option<CodeReader>): seq<Effect> {
    if reader.Some? then [ReaderReset(reader.value)] else []
  }

  /** The effects of the stream half of `stopCamera`. */
  function StopEffects(stream: Option<MediaStream>): seq<Effect> {
    if stream.Some? then TrackStops(stream.value.tracks) else []
  }

  /** The state after `stopCamera()`: reset the reader if there is one, stop every track of
      the stream if there is one, and clear all three variables. */
  function Stopped(s: Session): (r: Session)
    ensures r.stream.None? && r.codeReader.None? && !r.scanning
    ensures |r.effects| >= |s.effects| && r.effects[..|s.effects|] == s.effects
  {
    var log := s.effects + ResetEffects(s.codeReader) + StopEffects(s.stream);
    assert log[..|s.effects|] == s.effects;
    Session(None, None, false, log)
  }

  /** True when a decode result passes the ISBN gate of the callback. */
  predicate IsHit(result: Option<string>)
    ensures result.None? ==> !IsHit(result)
    ensures IsHit(result) ==> |Isbn.Digits(result.value)| == 13
  {
    result.Some? && Isbn.IsISBN13(result)
  }

  /** One invocation of the decode callback with `result` (`None` when the
      library reports no result): on an ISBN-13 it stops the camera and then
      starts the lookup; anything else leaves the session as it is. */
  function DecodeStep(s: Session, result: Option<string>): (r: Session)
    ensures !IsHit(result) ==> r == s
    ensures IsHit(result) ==> r.stream.None? && r.codeReader.None? && !r.scanning
  {
    if IsHit(result) then
      var t := Stopped(s);
      t.(effects := t.effects + [LookupStarted(result.value)])
    else s
  }

  /** The callback invoked once per result, in delivery order. */
  function Deliver(s: Session, results: seq<Option<string>>): (r: Session)
    ensures Hits(results) == [] ==> r == s
    ensures Hits(results) != [] ==> r.stream.None? && r.codeReader.None? && !r.scanning
  {
    if results == [] then s
    else DecodeStep(Deliver(s, results[..|results| - 1]), results[|results| - 1])
  }

  // ---------------------------------------------------------------------
  // Reading the effect log

  /** The readers reset, in order. */
  function Resets(e: seq<Effect>): seq<CodeReader> {
    if e == [] then []
    else Resets(e[..|e| - 1]) + (if e[|e| - 1].ReaderReset? then [e[|e| - 1].reader] else [])
  }

  /** The tracks stopped, in order. */
  function StoppedTracks(e: seq<Effect>): seq<Track> {
    if e == [] then []
    else StoppedTracks(e[..|e| - 1]) + (if e[|e| - 1].TrackStopped? then [e[|e| - 1].track] else [])
  }

  /** The lookups started, in order. */
  function Lookups(e: seq<Effect>): seq<string> {
    if e == [] then []
    else Lookups(e[..|e| - 1]) + (if e[|e| - 1].LookupStarted? then [e[|e| - 1].isbn] else [])
  }

  /** The texts among `results` that pass the ISBN gate, in order. */
  function Hits(results: seq<Option<string>>): seq<string> {
    if results == [] then []
    else
      var last := results[|results| - 1];
      Hits(results[..|results| - 1]) + (if IsHit(last) then [last.value] else [])
  }

  /** Each reading of the log distributes over concatenation. */
  lemma {:induction false} ResetsAppend(a: seq<Effect>, b: seq<Effect>)
    ensures Resets(a + b) == Resets(a) + Resets(b)
  {
    if b == [] {
      assert a + b == a;
    } else {
      assert (a + b)[..|a + b| - 1] == a + b[..|b| - 1];
      ResetsAppend(a, b[..|b| - 1]);
    }
  }

  lemma {:induction false} StoppedTracksAppend(a: seq<Effect>, b: seq<Effect>)
    ensures StoppedTracks(a + b) == StoppedTracks(a) + StoppedTracks(b)
  {
    if b == [] {
      assert a + b == a;
    } else {
      assert (a + b)[..|a + b| - 1] == a + b[..|b| - 1];
      StoppedTracksAppend(a, b[..|b| - 1]);
    }
  }

  lemma {:induction false} LookupsAppend(a: seq<Effect>, b: seq<Effect>)
    ensures Lookups(a + b) == Lookups(a) + Lookups(b)
  {
    if b == [] {
      assert a + b == a;
    } else {
      assert (a + b)[..|a + b| - 1] == a + b[..|b| - 1];
      LookupsAppend(a, b[..|b| - 1]);
    }
  }

  /** A log made only of track stops holds no reset and no lookup. */
  lemma {:induction false} NoResetsNoLookups(e: seq<Effect>)
    requires forall i :: 0 <= i < |e| ==> e[i].TrackStopped?
    ensures Resets(e) == [] && Lookups(e) == []
  {
    if e != [] {
      NoResetsNoLookups(e[..|e| - 1]);
    }
  }

  /** The track stops read back as the tracks, in order. */
  lemma {:induction false} StoppedTracksOfTrackStops(tracks: seq<Track>)
    ensures StoppedTracks(TrackStops(tracks)) == tracks
  {
    if tracks != [] {
      var init := tracks[..|tracks| - 1];
      assert TrackStops(tracks)[..|tracks| - 1] == TrackStops(init);
      StoppedTracksOfTrackStops(init);
      assert init + [tracks[|tracks| - 1]] == tracks;
    }
  }

  // ---------------------------------------------------------------------
  // Properties of the teardown and of the callback

  /** The readings of the effects of the reader half of `stopCamera`. */
  lemma ResetEffectsLog(reader: Option<CodeReader>)
    ensures Resets(ResetEffects(reader)) == (if reader.Some? then [reader.value] else [])
    ensures StoppedTracks(ResetEffects(reader)) == [] && Lookups(ResetEffects(reader)) == []
  {
    if reader.Some? {
      assert ResetEffects(reader)[..0] == [];
    }
  }

  /** The readings of the effects of the stream half of `stopCamera`. */
  lemma StopEffectsLog(stream: Option<MediaStream>)
    ensures Resets(StopEffects(stream)) == [] && Lookups(StopEffects(stream)) == []
    ensures StoppedTracks(StopEffects(stream)) == (if stream.Some? then stream.value.tracks else [])
  {
    if stream.Some? {
      NoResetsNoLookups(TrackStops(stream.value.tracks));
      StoppedTracksOfTrackStops(stream.value.tracks);
    }
  }

  /** The resets of `stopCamera`. */
  lemma ResetsOnStop(s: Session)
    ensures Resets(Stopped(s).effects) == Resets(s.effects) + (if s.codeReader.Some? then [s.codeReader.value] else [])
  {
    var before, resets, stops := s.effects, ResetEffects(s.codeReader), StopEffects(s.stream);
    assert Stopped(s).effects == (before + resets) + stops;
    ResetsAppend(before + resets, stops);
    ResetsAppend(before, resets);
    ResetEffectsLog(s.codeReader);
    StopEffectsLog(s.stream);
  }

  /** The track stops of `stopCamera`. */
  lemma TracksOnStop(s: Session)
    ensures StoppedTracks(Stopped(s).effects) == StoppedTracks(s.effects) + (if s.stream.Some? then s.stream.value.tracks else [])
  {
    var before, resets, stops := s.effects, ResetEffects(s.codeReader), StopEffects(s.stream);
    assert Stopped(s).effects == (before + resets) + stops;
    StoppedTracksAppend(before + resets, stops);
    StoppedTracksAppend(before, resets);
    ResetEffectsLog(s.codeReader);
    assert StoppedTracks(before + resets) == StoppedTracks(before);
    StopEffectsLog(s.stream);
    if s.stream.Some? {
      assert StoppedTracks(stops) == s.stream.value.tracks;
    } else {
      assert stops == [];
    }
  }

  /** `stopCamera` starts no lookup. */
  lemma LookupsOnStop(s: Session)
    ensures Lookups(Stopped(s).effects) == Lookups(s.effects)
  {
    var before, resets, stops := s.effects, ResetEffects(s.codeReader), StopEffects(s.stream);
    assert Stopped(s).effects == (before + resets) + stops;
    LookupsAppend(before + resets, stops);
    LookupsAppend(before, resets);
    ResetEffectsLog(s.codeReader);
    StopEffectsLog(s.stream);
  }

  /** `stopCamera` resets the reader exactly when there was one, stops
      exactly the tracks of the stream when there was one, and starts no
      lookup. The order of the reset and the stops is the one `Stopped` gives. */
  lemma ReleaseOnStop(s: Session)
    ensures Resets(Stopped(s).effects) ==
      Resets(s.effects) + (if s.codeReader.Some? then [s.codeReader.value] else [])
    ensures StoppedTracks(Stopped(s).effects) ==
      StoppedTracks(s.effects) + (if s.stream.Some? then s.stream.value.tracks else [])
    ensures Lookups(Stopped(s).effects) == Lookups(s.effects)
  {
    ResetsOnStop(s);
    TracksOnStop(s);
    LookupsOnStop(s);
  }

  /** Stopping twice leaves the same state as stopping once. */
  lemma StopIdempotent(s: Session)
    ensures Stopped(Stopped(s)) == Stopped(s)
  {
  }

  /** Stopping before anything was started changes nothing. */
  lemma StopBeforeStartIsNoop()
    ensures Stopped(Initial()) == Initial()
  {
  }

  /** A callback starts a lookup exactly when its result is an ISBN-13, and
      then only after the whole teardown: the log is the teardown's log
      followed by the one lookup. */
  lemma StopPrecedesLookup(s: Session, result: Option<string>)
    ensures Lookups(DecodeStep(s, result).effects) ==
      Lookups(s.effects) + (if IsHit(result) then [result.value] else [])
    ensures IsHit(result) ==>
      DecodeStep(s, result).effects == Stopped(s).effects + [LookupStarted(result.value)]
  {
    if IsHit(result) {
      ReleaseOnStop(s);
      LookupsAppend(Stopped(s).effects, [LookupStarted(result.value)]);
      assert [LookupStarted(result.value)][..0] == [];
    }
  }

  /** Over a stream of callbacks, the lookups started are exactly the
      results that pass the ISBN gate, in order. */
  lemma {:induction false} LookupsAreHits(s: Session, results: seq<Option<string>>)
    ensures Lookups(Deliver(s, results).effects) == Lookups(s.effects) + Hits(results)
  {
    if results != [] {
      var init := results[..|results| - 1];
      LookupsAreHits(s, init);
      StopPrecedesLookup(Deliver(s, init), results[|results| - 1]);
    }
  }

  /** Two callbacks with no result, then one with an ISBN-13: exactly one
      lookup, of that ISBN, and the camera is released. */
  lemma OneLookupAfterNotFound(s: Session, text: string)
    requires Isbn.IsISBN13(Some(text))
    ensures var r := Deliver(s, [None, None, Some(text)]);
      Lookups(r.effects) == Lookups(s.effects) + [text] &&
      r.stream.None? && r.codeReader.None?
  {
    var results: seq<Option<string>> := [None, None, Some(text)];
    LookupsAreHits(s, results);
    assert results[..2] == [None, None] && results[..2][..1] == [None] && results[..1][..0] == [];
    assert Hits(results[..1]) == [];
    assert Hits(results[..2]) == [];
  }

  /** "9780134190440" after two empty results starts exactly one lookup. */
  lemma OneLookupForExample(s: Session)
    ensures Lookups(Deliver(s, [None, None, Some("9780134190440")]).effects) ==
      Lookups(s.effects) + ["9780134190440"]
  {
    Isbn.ExampleValid();
    OneLookupAfterNotFound(s, "9780134190440");
  }

  /** The callback itself does not consult `scanning`: the same ISBN-13
      delivered twice starts two lookups. */
  lemma NoGuardOnRepeatedHits(s: Session, text: string)
    requires Isbn.IsISBN13(Some(text))
    ensures Lookups(Deliver(s, [Some(text), Some(text)]).effects) == Lookups(s.effects) + [text, text]
  {
    var results: seq<Option<string>> := [Some(text), Some(text)];
    LookupsAreHits(s, results);
    assert results[..1] == [Some(text)] && results[..1][..0] == [];
    assert Hits(results[..1]) == [text];
  }

  // ---------------------------------------------------------------------
  // The module-level variables as one object

  class ScanSession {
    var stream: Option<MediaStream>
    var codeReader: Option<CodeReader>
    var scanning: bool
    ghost var effects: seq<Effect>

    ghost function State(): Session
      reads this
    {
      Session(stream, codeReader, scanning, effects)
    }

    /** `let stream = null; let codeReader = null; let scanning = false;` */
    constructor ()
      ensures State() == Initial()
    {
      stream, codeReader, scanning := None, None, false;
      effects := [];
    }

    /** `stream = await getUserMedia(...)`: the acquired stream is a parameter. */
    method AttachStream(acquired: MediaStream)
      modifies this
      ensures State() == old(State()).(stream := Some(acquired))
    {
      stream := Some(acquired);
    }

    /** `codeReader = new BrowserMultiFormatReader()`: the new reader is a parameter. */
    method AttachReader(reader: CodeReader)
      modifies this
      ensures State() == old(State()).(codeReader := Some(reader))
    {
      codeReader := Some(reader);
    }

    /** `stopCamera()`. */
    method StopCamera()
      modifies this
      ensures State() == Stopped(old(State()))
    {
      ghost var start := State();
      if codeReader.Some? {
        effects := effects + [ReaderReset(codeReader.value)];
        codeReader := None;
      }
      if stream.Some? {
        var tracks := stream.value.tracks;
        ghost var before := effects;
        var i := 0;
        while i < |tracks|
          invariant 0 <= i <= |tracks|
          invariant effects == before + TrackStops(tracks[..i])
          invariant codeReader.None?
        {
          assert tracks[..i + 1][..i] == tracks[..i];
          effects := effects + [TrackStopped(tracks[i])];
          i := i + 1;
        }
        assert tracks[..|tracks|] == tracks;
        stream := None;
      }
      scanning := false;
      assert effects == Stopped(start).effects;
    }

    /** The decode callback: on an ISBN-13 it stops the camera, then starts
        the lookup, whose ISBN it returns. */
    method OnDecode(result: Option<string>) returns (lookup: Option<string>)
      modifies this
      ensures State() == DecodeStep(old(State()), result)
      ensures lookup == (if IsHit(result) then result else None)
    {
      lookup := None;
      if result.Some? {
        var text := result.value;
        var ok := Isbn.CheckIsbn13(Some(text));
        if ok {
          StopCamera();
          effects := effects + [LookupStarted(text)];
          lookup := Some(text);
        }
      }
    }
  }
}
