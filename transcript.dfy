/**
 * The pure part of `get_transcript`: choosing a track from what the transcript service
 * lists, joining the fetched segments' texts, and turning the service's three named
 * failures into messages. The service itself is not modelled: what it lists and what
 * fetching a track yields are inputs.
 */
module Transcript {
  import opened Wrappers

  /** One timed piece of a transcript. Only its text is kept; timing is dropped. */
  datatype Segment = Segment(text: string)

  /** The failures the service can raise; `OtherFailure` stands for any exception not caught by name. */
  datatype FetchError = TranscriptsDisabled | NoTranscriptFound | VideoUnavailable | OtherFailure(description: string)

  /** A track offered for the video, with what fetching it yields. */
  datatype Track = Track(languageCode: string, fetched: Result<seq<Segment>, FetchError>)

  /**
   * The service's listing: the track its `find_transcript(['it', 'en'])` picks, if any
   * (`None` when it raises `NoTranscriptFound`), and all tracks in its iteration order.
   */
  datatype TrackList = TrackList(preferred: Option<Track>, tracks: seq<Track>)

  /** What `get_transcript` raises: a message of its own, or the service's exception unchanged. */
  datatype Raised = Reported(message: string) | Propagated(error: FetchError)

  const DisabledMessage: string := "Le trascrizioni sono disabilitate per questo video."
  const NotFoundMessage: string := "Nessuna trascrizione trovata per questo video."
  const UnavailableMessage: string := "Video non disponibile o ID non valido."

  /** The `except` clauses: each named failure becomes its message; anything else passes through. */
  function Raise(e: FetchError): Raised {
    match e
    case TranscriptsDisabled => Reported(DisabledMessage)
    case NoTranscriptFound => Reported(NotFoundMessage)
    case VideoUnavailable => Reported(UnavailableMessage)
    case OtherFailure(_) => Propagated(e)
  }

  function Texts(segs: seq<Segment>): seq<string> {
    seq(|segs|, k requires 0 <= k < |segs| => segs[k].text)
  }

  /** `" ".join(entry['text'] for entry in segs)` */
  function JoinTexts(segs: seq<Segment>): string {
    if segs == [] then ""
    else if |segs| == 1 then segs[0].text
    else segs[0].text + " " + JoinTexts(segs[1..])
  }

  /** Italian or English if the service offers one, else the first track listed, else `NoTranscriptFound`. */
  function ChooseTrack(list: TrackList): Result<Track, FetchError> {
    if list.preferred.Some? then Success(list.preferred.value)
    else if list.tracks != [] then Success(list.tracks[0])
    else Failure(NoTranscriptFound)
  }

  /** `get_transcript`, given what listing the video's tracks yields. */
  function GetTranscript(listing: Result<TrackList, FetchError>): Result<string, Raised> {
    match listing
    case Failure(e) => Failure(Raise(e))
    case Success(list) =>
      match ChooseTrack(list)
      case Failure(e) => Failure(Raise(e))
      case Success(track) =>
        match track.fetched
        case Failure(e) => Failure(Raise(e))
        case Success(segs) => Success(JoinTexts(segs))
  }

  /** Total length of the segment texts. */
  function TextLength(segs: seq<Segment>): nat {
    if segs == [] then 0 else |segs[0].text| + TextLength(segs[1..])
  }

  /** Python's `s.split(' ')`: the pieces between single spaces, empty pieces included. */
  function SplitOnSpace(s: string): (r: seq<string>)
    ensures |r| > 0
  {
    if s == [] then [""]
    else
      var tail := SplitOnSpace(s[1..]);
      if s[0] == ' ' then [""] + tail else [[s[0]] + tail[0]] + tail[1..]
  }

  /** Joining puts exactly one space between consecutive texts and none at either end. */
  lemma {:induction false} JoinLength(segs: seq<Segment>)
    requires segs != []
    ensures |JoinTexts(segs)| == TextLength(segs) + |segs| - 1
  {
    if |segs| > 1 {
      JoinLength(segs[1..]);
    }
  }

  /** Joining keeps the segments' order: the join of two runs is their joins around one space. */
  lemma {:induction false} JoinAppend(a: seq<Segment>, b: seq<Segment>)
    requires a != [] && b != []
    ensures JoinTexts(a + b) == JoinTexts(a) + " " + JoinTexts(b)
  {
    if |a| == 1 {
      assert (a + b)[1..] == b;
    } else {
      assert (a + b)[1..] == a[1..] + b;
      JoinAppend(a[1..], b);
    }
  }

  lemma {:induction false} SplitWord(w: string, t: string)
    requires ' ' !in w
    ensures SplitOnSpace(w) == [w]
    ensures SplitOnSpace(w + " " + t) == [w] + SplitOnSpace(t)
  {
    if w == [] {
      assert (w + " " + t) == [' '] + t;
      assert ([' '] + t)[1..] == t;
    } else {
      assert w[0] in w;
      assert w[1..] + " " + t == (w + " " + t)[1..];
      SplitWord(w[1..], t);
      assert [w[0]] + w[1..] == w;
    }
  }

  /** When no text holds a space, splitting the joined text on spaces gives the texts back. */
  lemma {:induction false} SplitJoin(segs: seq<Segment>)
    requires segs != []
    requires forall k :: 0 <= k < |segs| ==> ' ' !in segs[k].text
    ensures SplitOnSpace(JoinTexts(segs)) == Texts(segs)
  {
    SplitWord(segs[0].text, if |segs| > 1 then JoinTexts(segs[1..]) else "");
    if |segs| > 1 {
      SplitJoin(segs[1..]);
      assert Texts(segs) == [segs[0].text] + Texts(segs[1..]);
    }
  }

  /** The three named failures yield three different messages; other failures are passed on untouched. */
  lemma RaiseDistinguishes(e1: FetchError, e2: FetchError)
    ensures Raise(e1).Reported? <==> !e1.OtherFailure?
    ensures Raise(e1).Propagated? ==> Raise(e1).error == e1
    ensures Raise(e1) == Raise(e2) ==> e1 == e2
  {
  }

  /** A track that `find_transcript(['it', 'en'])` picks decides the result; the other tracks play no part. */
  lemma PreferredTrackDecides(list: TrackList, others: seq<Track>)
    requires list.preferred.Some?
    ensures GetTranscript(Success(list)) == GetTranscript(Success(TrackList(list.preferred, others)))
    ensures list.preferred.value.fetched.Success? ==>
      GetTranscript(Success(list)) == Success(JoinTexts(list.preferred.value.fetched.value))
  {
  }

  /** Without an Italian or English track, the first track listed is fetched. */
  lemma FallsBackToFirstTrack(list: TrackList)
    requires list.preferred.None? && list.tracks != []
    ensures GetTranscript(Success(list)) == GetTranscript(Success(TrackList(None, list.tracks[..1])))
    ensures list.tracks[0].fetched.Failure? ==> GetTranscript(Success(list)) == Failure(Raise(list.tracks[0].fetched.error))
  {
  }

  /** No track at all is reported as "no transcript found". */
  lemma NoTrackIsNotFound(list: TrackList)
    requires list.preferred.None? && list.tracks == []
    ensures GetTranscript(Success(list)) == Failure(Reported(NotFoundMessage))
  {
  }

  /** Success means the chosen track's segments, joined; any failure is the mapped failure of some stage. */
  lemma GetTranscriptOutcome(listing: Result<TrackList, FetchError>)
    ensures GetTranscript(listing).Success? ==>
      exists track :: ChooseTrack(listing.value) == Success(track) && track.fetched.Success? &&
        GetTranscript(listing).value == JoinTexts(track.fetched.value)
    ensures GetTranscript(listing).Failure? ==> exists e :: GetTranscript(listing).error == Raise(e)
  {
    match listing
    case Failure(e) =>
    case Success(list) =>
      match ChooseTrack(list)
      case Failure(e) =>
      case Success(track) =>
        match track.fetched
        case Failure(e) =>
        case Success(segs) =>
  }

  /** Segments `Hello` and `world` give `Hello world`. */
  lemma JoinExample()
    ensures JoinTexts([Segment("Hello"), Segment("world")]) == "Hello world"
  {
  }
}
