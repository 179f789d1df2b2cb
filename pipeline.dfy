/**
 * The pieces put together: the transcript that `get_transcript` joins is the text whose
 * words `generate_lesson_from_text` counts, and one watch URL is followed from its video
 * id to the card made of its transcript.
 */
module LessonTool {
  import opened Wrappers
  import opened VideoId
  import opened Transcript
  import opened Lesson
  import opened Markdown

  /** Total number of words in the segments' texts, each counted on its own. */
  function SegmentWords(segs: seq<Segment>): nat {
    if segs == [] then 0 else WordCount(segs[0].text) + SegmentWords(segs[1..])
  }

  /**
   * Joining with single spaces neither merges nor splits words: the word count of the
   * joined transcript is the total of the segments' word counts.
   */
  lemma {:induction false} WordCountOfTranscript(segs: seq<Segment>)
    ensures WordCount(JoinTexts(segs)) == SegmentWords(segs)
  {
    if |segs| > 1 {
      WordsAroundSpace(segs[0].text, ' ', JoinTexts(segs[1..]));
      WordCountOfTranscript(segs[1..]);
    }
  }

  /** Two one-word segments make a two-word transcript. */
  lemma TwoWords(segs: seq<Segment>)
    requires |segs| == 2
    requires forall k :: 0 <= k < 2 ==> segs[k].text != [] && NoSpace(segs[k].text)
    ensures WordCount(JoinTexts(segs)) == 2
  {
    WordCountOfTranscript(segs);
    WordsOfWord(segs[0].text);
    WordsOfWord(segs[1].text);
    assert segs[1..] == [segs[1]] && segs[1..][1..] == [];
    assert SegmentWords(segs[1..]) == 1;
  }

  /** `Hello world` is short and holds no special character. */
  lemma HelloWorldPlain(t: string)
    requires t == "Hello world"
    ensures |t| <= PreviewLimit && forall k :: 0 <= k < |t| ==> !IsSpecial(t[k])
  {
    forall k | 0 <= k < |t|
      ensures !IsSpecial(t[k])
    {
      assert t[k] in "Helo wrd";
    }
  }

  /**
   * Two one-word segments whose joined text is short and holds no special character: the
   * card writes 2 as the word count and the joined text, unchanged, as preview and transcript.
   */
  lemma TwoWordPlainCard(segs: seq<Segment>)
    requires |segs| == 2
    requires forall k :: 0 <= k < 2 ==> segs[k].text != [] && NoSpace(segs[k].text)
    requires var t := JoinTexts(segs); |t| <= PreviewLimit && forall k :: 0 <= k < |t| ==> !IsSpecial(t[k])
    ensures var t := JoinTexts(segs); LessonCard(t) == FillCard(CardTemplate, "2", t, t)
  {
    var t := JoinTexts(segs);
    TwoWords(segs);
    EscapePlain(t);
    assert DecimalString(2) == "2";
    CardOfPlain(t, "2");
  }

  /** The segments `Hello` and `world` make a card that counts 2 words and shows `Hello world` unescaped. */
  lemma HelloWorldCard(segs: seq<Segment>)
    requires segs == [Segment("Hello"), Segment("world")]
    ensures JoinTexts(segs) == "Hello world"
    ensures WordCount(JoinTexts(segs)) == 2
    ensures var t := JoinTexts(segs); LessonCard(t) == FillCard(CardTemplate, "2", t, t)
  {
    JoinExample();
    assert NoSpace("Hello") && NoSpace("world");
    TwoWords(segs);
    HelloWorldPlain(JoinTexts(segs));
    TwoWordPlainCard(segs);
  }

  /**
   * `https://www.youtube.com/watch?v=ABCDEFGHIJK&t=5s`, whose service offers one English
   * track holding the segments `Hello` and `world`: the id is `ABCDEFGHIJK`, the transcript
   * is `Hello world`, and the card writes 2 as its word count and `Hello world`, unchanged
   * by escaping, as both the preview and the full transcript.
   */
  lemma WatchUrlToLessonExample(url: string, segs: seq<Segment>)
    requires url == "https://www." + "youtube.com/watch?v=" + "ABCDEFGHIJK" + "&t=5s"
    requires segs == [Segment("Hello"), Segment("world")]
    ensures ExtractVideoId(url) == Some("ABCDEFGHIJK")
    ensures var en := Track("en", Success(segs));
      GetTranscript(Success(TrackList(Some(en), [en]))) == Success(JoinTexts(segs))
    ensures JoinTexts(segs) == "Hello world"
    ensures WordCount(JoinTexts(segs)) == 2
    ensures var t := JoinTexts(segs); LessonCard(t) == FillCard(CardTemplate, "2", t, t)
  {
    ExtractWatchExample("https://www.", "ABCDEFGHIJK", "&t=5s");
    HelloWorldCard(segs);
  }
}
