/**
 * `generate_lesson_from_text`: the word count, the 500-character preview, and the
 * fixed Markdown template of the lesson card around the escaped preview and the
 * escaped full transcript.
 */
module Lesson {
  import opened Markdown

  /**
   * The characters Python's `str.split()` splits on (`str.isspace`): the controls
   * U+0009 to U+000D and U+001C to U+001F, the space, U+0085, U+00A0, U+1680,
   * U+2000 to U+200A, U+2028, U+2029, U+202F, U+205F and U+3000.
   */
  predicate IsSpace(c: char) {
    ('\t' <= c <= '\r') || ('\U{1C}' <= c <= ' ') || c == '\U{85}' || c == '\U{A0}' ||
    c == '\U{1680}' || ('\U{2000}' <= c <= '\U{200A}') || c == '\U{2028}' || c == '\U{2029}' ||
    c == '\U{202F}' || c == '\U{205F}' || c == '\U{3000}'
  }

  predicate NoSpace(w: string) {
    forall k :: 0 <= k < |w| ==> !IsSpace(w[k])
  }

  /** Length of the run of non-space characters that `s` starts with. */
  function WordLen(s: string): (n: nat)
    ensures n <= |s| && NoSpace(s[..n])
    ensures n < |s| ==> IsSpace(s[n])
  {
    if s == [] || IsSpace(s[0]) then 0
    else
      var m := WordLen(s[1..]);
      assert s[..1 + m] == [s[0]] + s[1..][..m];
      1 + m
  }

  /** `s.split()`: the maximal runs of non-space characters, in order. */
  function Words(s: string): (r: seq<string>)
    ensures forall i :: 0 <= i < |r| ==> r[i] != [] && NoSpace(r[i])
    decreases |s|
  {
    if s == [] then []
    else if IsSpace(s[0]) then Words(s[1..])
    else
      var n := WordLen(s);
      [s[..n]] + Words(s[n..])
  }

  /** `len(transcript_text.split())` */
  function WordCount(s: string): nat {
    |Words(s)|
  }

  /** Number of indices where a run of non-space characters starts; `afterSpace` says whether the text before `s` ended in a space (or was empty). */
  function RunStarts(s: string, afterSpace: bool): nat {
    if s == [] then 0
    else (if afterSpace && !IsSpace(s[0]) then 1 else 0) + RunStarts(s[1..], IsSpace(s[0]))
  }

  /** The characters of `s` that are not spaces, in order. */
  function NonSpace(s: string): string {
    if s == [] then [] else (if IsSpace(s[0]) then [] else [s[0]]) + NonSpace(s[1..])
  }

  function Flatten(ws: seq<string>): string {
    if ws == [] then [] else ws[0] + Flatten(ws[1..])
  }

  lemma {:induction false} RunStartsInWord(s: string, m: nat)
    requires 0 < m <= |s| && NoSpace(s[..m])
    ensures RunStarts(s, false) == RunStarts(s[m..], false)
    decreases m
  {
    assert s[0] == s[..m][0];
    if m > 1 {
      assert s[1..][..m - 1] == s[1..m];
      assert forall k :: 0 <= k < m - 1 ==> s[1..m][k] == s[..m][k + 1];
      RunStartsInWord(s[1..], m - 1);
      assert s[1..][m - 1..] == s[m..];
    }
  }

  lemma RunStartsAtSpace(s: string)
    requires s == [] || IsSpace(s[0])
    ensures RunStarts(s, false) == RunStarts(s, true)
  {
  }

  /** The word count is the number of places where a run of non-space characters begins. */
  lemma {:induction false} WordCountIsRunStarts(s: string)
    ensures WordCount(s) == RunStarts(s, true)
    decreases |s|
  {
    if s != [] {
      if IsSpace(s[0]) {
        WordCountIsRunStarts(s[1..]);
      } else {
        var n := WordLen(s);
        WordCountIsRunStarts(s[n..]);
        RunStartsAtSpace(s[n..]);
        if n > 1 {
          var u := s[1..][..n - 1];
          forall k | 0 <= k < |u|
            ensures !IsSpace(u[k])
          {
            assert u[k] == s[..n][k + 1];
          }
          RunStartsInWord(s[1..], n - 1);
          assert s[1..][n - 1..] == s[n..];
        }
      }
    }
  }

  lemma {:induction false} NonSpaceConcat(a: string, b: string)
    ensures NonSpace(a + b) == NonSpace(a) + NonSpace(b)
  {
    if a == [] {
      assert a + b == b;
    } else {
      assert (a + b)[1..] == a[1..] + b;
      NonSpaceConcat(a[1..], b);
    }
  }

  lemma {:induction false} NonSpaceOfWord(w: string)
    requires NoSpace(w)
    ensures NonSpace(w) == w
  {
    if w != [] {
      assert NoSpace(w[1..]) by {
        assert forall k :: 0 <= k < |w| - 1 ==> w[1..][k] == w[k + 1];
      }
      NonSpaceOfWord(w[1..]);
    }
  }

  /** Splitting loses and invents nothing: the words, put back together, are the text without its spaces. */
  lemma {:induction false} WordsCoverText(s: string)
    ensures Flatten(Words(s)) == NonSpace(s)
    decreases |s|
  {
    if s != [] {
      if IsSpace(s[0]) {
        WordsCoverText(s[1..]);
      } else {
        var n := WordLen(s);
        WordsCoverText(s[n..]);
        assert s == s[..n] + s[n..];
        NonSpaceConcat(s[..n], s[n..]);
        NonSpaceOfWord(s[..n]);
        assert ([s[..n]] + Words(s[n..]))[1..] == Words(s[n..]);
      }
    }
  }

  /** A text has no words exactly when all of its characters are spaces. */
  lemma {:induction false} NoWordsIffAllSpace(s: string)
    ensures WordCount(s) == 0 <==> forall k :: 0 <= k < |s| ==> IsSpace(s[k])
    decreases |s|
  {
    if s != [] && IsSpace(s[0]) {
      NoWordsIffAllSpace(s[1..]);
      assert forall k :: 1 <= k < |s| ==> s[k] == s[1..][k - 1];
    }
  }

  /** A space after the text ends the text's first word where it would end anyway. */
  lemma {:induction false} WordLenBeforeSpace(a: string, rest: string)
    requires rest != [] && IsSpace(rest[0])
    ensures WordLen(a + rest) == WordLen(a)
  {
    if a == [] {
      assert a + rest == rest;
    } else {
      assert (a + rest)[0] == a[0];
      assert (a + rest)[1..] == a[1..] + rest;
      WordLenBeforeSpace(a[1..], rest);
    }
  }

  /** A text with no space in it is one word, or none when it is empty. */
  lemma WordsOfWord(w: string)
    requires NoSpace(w)
    ensures Words(w) == if w == [] then [] else [w]
  {
    if w != [] {
      assert w[..|w|] == w && w[|w|..] == [];
    }
  }

  /** Splitting at a space: the words of `a`, a space, then `b` are the words of `a` followed by those of `b`. */
  lemma {:induction false} WordsAroundSpace(a: string, c: char, b: string)
    requires IsSpace(c)
    ensures Words(a + [c] + b) == Words(a) + Words(b)
    decreases |a|
  {
    var s := a + [c] + b;
    if a == [] {
      assert s == [c] + b;
      assert s[1..] == b;
    } else if IsSpace(a[0]) {
      assert s[0] == a[0];
      assert s[1..] == a[1..] + [c] + b;
      WordsAroundSpace(a[1..], c, b);
    } else {
      assert s[0] == a[0];
      assert s == a + ([c] + b);
      WordLenBeforeSpace(a, [c] + b);
      var n := WordLen(a);
      assert s[..n] == a[..n];
      assert s[n..] == a[n..] + [c] + b;
      WordsAroundSpace(a[n..], c, b);
    }
  }

  const PreviewLimit: nat := 500
  const Ellipsis: string := "..."

  /** `transcript_text[:500] + "..." if len(transcript_text) > 500 else transcript_text` */
  function Preview(t: string): (r: string)
    ensures |t| <= PreviewLimit ==> r == t
    ensures |t| > PreviewLimit ==>
      |r| == PreviewLimit + |Ellipsis| && r[..PreviewLimit] == t[..PreviewLimit] && r[PreviewLimit..] == Ellipsis
  {
    if |t| > PreviewLimit then t[..PreviewLimit] + Ellipsis else t
  }

  /**
   * The preview is escaped after it is cut: a text that fits is escaped whole; a longer one
   * gives the escaped text of its first 500 characters, which is where the escaped full
   * transcript begins, followed by the ellipsis escaped as `\.\.\.`.
   */
  lemma EscapedPreview(t: string)
    ensures |t| <= PreviewLimit ==> Escape(Preview(t)) == Escape(t)
    ensures |t| > PreviewLimit ==>
      var cut := Escape(t[..PreviewLimit]);
      |cut| <= |Escape(t)| && cut == Escape(t)[..|cut|] &&
      Escape(Preview(t)) == cut + "\\.\\.\\." &&
      |Escape(Preview(t))| == PreviewLimit + CountSpecial(t[..PreviewLimit]) + 6
  {
    if |t| > PreviewLimit {
      var head := t[..PreviewLimit];
      assert t == head + t[PreviewLimit..];
      EscapeConcat(head, t[PreviewLimit..]);
      EscapeConcat(head, Ellipsis);
      EscapeLength(head);
      assert Escape(Ellipsis) == "\\.\\.\\." by {
        assert Escape(".") == "\\.";
        assert Ellipsis == "." + "." + ".";
        EscapeConcat("." + ".", ".");
        EscapeConcat(".", ".");
      }
    }
  }

  function DigitChar(d: nat): char
    requires d < 10
  {
    ('0' as int + d) as char
  }

  function DigitValue(c: char): nat {
    if '0' <= c <= '9' then (c - '0') as nat else 0
  }

  /** Python's `str(n)` for a non-negative integer: its decimal digits, no leading zero. */
  function DecimalString(n: nat): (r: string)
    ensures |r| >= 1 && (r[0] == '0' ==> n == 0)
    ensures |r| > 1 ==> r[0] != '0'
    ensures forall k :: 0 <= k < |r| ==> '0' <= r[k] <= '9'
  {
    if n < 10 then [DigitChar(n)] else DecimalString(n / 10) + [DigitChar(n % 10)]
  }

  /** The value of a string of decimal digits. */
  function ParseDecimal(s: string): nat {
    if s == [] then 0 else 10 * ParseDecimal(s[..|s| - 1]) + DigitValue(s[|s| - 1])
  }

  /** The count written into the card reads back as the count. */
  lemma {:induction false} ParseDecimalString(n: nat)
    ensures ParseDecimal(DecimalString(n)) == n
  {
    if n >= 10 {
      ParseDecimalString(n / 10);
      var r := DecimalString(n);
      assert r[..|r| - 1] == DecimalString(n / 10);
    }
  }

  /** The words around the count in the card's count line. */
  const CountLabel: string := "- **Lunghezza trascrizione**: "
  const CountUnit: string := " parole"

  const CardHead: string :=
    "# 📚 Scheda di Lezione\n\n" +
    "## 📋 Informazioni Generali\n" +
    CountLabel

  const CountTail: string :=
    CountUnit + "\n" +
    "- **Lingua**: Italiano/Inglese\n\n" +
    "## 📝 Anteprima Trascrizione\n"

  /** The placeholder sections between the preview and the full transcript. */
  const StaticSections: string :=
    "\n\n" +
    "## 🎯 Obiettivi della Lezione\n" +
    "*Questa sezione conterrà gli obiettivi principali della lezione una volta integrata l'elaborazione AI.*\n\n" +
    "## 🔑 Concetti Chiave\n" +
    "*Questa sezione elencherà i concetti principali trattati nella lezione.*\n\n" +
    "1. Concetto 1\n" +
    "2. Concetto 2\n" +
    "3. Concetto 3\n\n" +
    "## 📖 Spiegazione Dettagliata\n" +
    "*Questa sezione conterrà una spiegazione approfondita degli argomenti trattati.*\n\n" +
    "### Argomento 1\n" +
    "Descrizione dettagliata...\n\n" +
    "### Argomento 2\n" +
    "Descrizione dettagliata...\n\n" +
    "## 🧮 Formule Importanti\n" +
    "*Se applicabile, questa sezione mostrerà le formule matematiche o fisiche trattate.*\n\n" +
    "## 💡 Esempi\n" +
    "*Questa sezione conterrà esempi pratici discussi nella lezione.*\n\n" +
    "## 📌 Riepilogo\n" +
    "*Questa sezione riassumerà i punti chiave della lezione.*\n\n" +
    "---\n\n" +
    "## 🔬 Nota per il Futuro\n" +
    "Per ottenere un'analisi completa e intelligente del contenuto, questa applicazione può essere integrata con:\n" +
    "- OpenAI GPT-4\n" +
    "- Anthropic Claude\n" +
    "- Google Gemini\n" +
    "- Altri modelli di linguaggio avanzati\n\n" +
    "Il modello AI analizzerà la trascrizione completa e genererà automaticamente:\n" +
    "- Titolo appropriato\n" +
    "- Riassunto\n" +
    "- Concetti chiave estratti\n" +
    "- Spiegazioni dettagliate\n" +
    "- Formule (se presenti)\n" +
    "- Esempi pratici\n" +
    "- Conclusioni\n\n" +
    "### 📄 Trascrizione Completa\n" +
    "<details>\n" +
    "<summary>Clicca per visualizzare la trascrizione completa</summary>\n\n"

  const CardFoot: string := "\n\n</details>\n"

  /** A card template: the fixed text before the count, between the count and the preview, between the preview and the transcript, and after the transcript. */
  datatype Template = Template(head: string, countTail: string, sections: string, foot: string)

  /** The template `generate_lesson_from_text` fills. */
  const CardTemplate: Template := Template(CardHead, CountTail, StaticSections, CardFoot)

  /** A template with its three holes filled: the count, the preview and the transcript, each as given. */
  function FillCard(tpl: Template, count: string, preview: string, transcript: string): string {
    tpl.head + (count + (tpl.countTail + (preview + (tpl.sections + (transcript + tpl.foot)))))
  }

  /** The card a template makes of a transcript: its word count in decimal, its escaped preview and the escaped transcript. */
  function CardOf(tpl: Template, t: string): string {
    FillCard(tpl, DecimalString(WordCount(t)), Escape(Preview(t)), Escape(t))
  }

  /** The lesson card. */
  function LessonCard(t: string): string {
    CardOf(CardTemplate, t)
  }

  /** `generate_lesson_from_text`, calling the escaper's loop for the preview and for the full text. */
  method GenerateLessonFromText(transcriptText: string) returns (lessonCard: string)
    ensures lessonCard == LessonCard(transcriptText)
  {
    var wordCount := WordCount(transcriptText);
    var preview := Preview(transcriptText);
    var previewEscaped := EscapeMarkdown(preview);
    var transcriptEscaped := EscapeMarkdown(transcriptText);
    lessonCard := FillCard(CardTemplate, DecimalString(wordCount), previewEscaped, transcriptEscaped);
  }

  /**
   * A short transcript without special characters appears in the card twice as it is: once as
   * the preview and once as the full transcript, with its word count in decimal before them.
   */
  lemma CardOfPlain(t: string, n: string)
    requires |t| <= PreviewLimit && Escape(t) == t && DecimalString(WordCount(t)) == n
    ensures LessonCard(t) == FillCard(CardTemplate, n, t, t)
  {
  }

  /** In a filled template, the preview follows the count's tail, and the sections follow the preview. */
  lemma FillPreviewSlice(tpl: Template, count: string, preview: string, transcript: string)
    ensures var c := FillCard(tpl, count, preview, transcript);
      var p0 := |tpl.head| + |count| + |tpl.countTail|;
      var p1 := p0 + |preview|;
      p1 + |tpl.sections| <= |c| &&
      c[p0..p1] == preview && c[p1..p1 + |tpl.sections|] == tpl.sections
  {
    var c := FillCard(tpl, count, preview, transcript);
    var p0 := |tpl.head| + |count| + |tpl.countTail|;
    var r3 := preview + (tpl.sections + (transcript + tpl.foot));
    assert c[p0..] == r3;
    assert c[p0..p0 + |preview|] == r3[..|preview|];
    assert c[p0 + |preview|..] == tpl.sections + (transcript + tpl.foot);
    assert c[p0 + |preview|..p0 + |preview| + |tpl.sections|] == (tpl.sections + (transcript + tpl.foot))[..|tpl.sections|];
  }

  /** A filled template closes with the transcript and then the template's foot. */
  lemma FillTranscriptSlice(tpl: Template, count: string, preview: string, transcript: string)
    ensures var c := FillCard(tpl, count, preview, transcript);
      |transcript| + |tpl.foot| <= |c| &&
      c[|c| - |tpl.foot| - |transcript|..|c| - |tpl.foot|] == transcript &&
      c[|c| - |tpl.foot|..] == tpl.foot
  {
    var c := FillCard(tpl, count, preview, transcript);
    var k := |c| - |tpl.foot| - |transcript|;
    assert k == |tpl.head| + |count| + |tpl.countTail| + |preview| + |tpl.sections|;
    assert c[k..] == transcript + tpl.foot;
    assert c[k..k + |transcript|] == (transcript + tpl.foot)[..|transcript|];
    assert c[k + |transcript|..] == tpl.foot;
  }

  /** A card opens with the template's head, and the word count in decimal follows it. */
  lemma CardCountSlice(tpl: Template, t: string)
    ensures var c := CardOf(tpl, t);
      var h := |tpl.head|;
      var d := DecimalString(WordCount(t));
      h + |d| <= |c| && c[..h] == tpl.head && c[h..h + |d|] == d
  {
    var c := CardOf(tpl, t);
    var h := |tpl.head|;
    var d := DecimalString(WordCount(t));
    var r1 := d + (tpl.countTail + (Escape(Preview(t)) + (tpl.sections + (Escape(t) + tpl.foot))));
    assert c[h..] == r1;
    assert c[h..h + |d|] == r1[..|d|];
  }

  /** The count written after the template's head reads back as the word count. */
  lemma CardCount(tpl: Template, t: string)
    ensures var c := CardOf(tpl, t);
      var h := |tpl.head|;
      var d := DecimalString(WordCount(t));
      h + |d| <= |c| && ParseDecimal(c[h..h + |d|]) == WordCount(t)
  {
    CardCountSlice(tpl, t);
    ParseDecimalString(WordCount(t));
  }

  /**
   * After the template's text that follows the count comes the escaped preview, and the
   * template's sections follow it.
   */
  lemma CardPreviewSlice(tpl: Template, t: string)
    ensures var c := CardOf(tpl, t);
      var p0 := |tpl.head| + |DecimalString(WordCount(t))| + |tpl.countTail|;
      var p1 := p0 + |Escape(Preview(t))|;
      p1 + |tpl.sections| <= |c| &&
      c[p0..p1] == Escape(Preview(t)) && c[p1..p1 + |tpl.sections|] == tpl.sections
  {
    FillPreviewSlice(tpl, DecimalString(WordCount(t)), Escape(Preview(t)), Escape(t));
  }

  /** Unescaping the card's preview slice gives the preview back. */
  lemma CardPreview(tpl: Template, t: string)
    ensures var c := CardOf(tpl, t);
      var p0 := |tpl.head| + |DecimalString(WordCount(t))| + |tpl.countTail|;
      var p1 := p0 + |Escape(Preview(t))|;
      p1 <= |c| && Unescape(c[p0..p1]) == Preview(t)
  {
    CardPreviewSlice(tpl, t);
    UnescapeEscape(Preview(t));
  }

  /** A card closes with the escaped full transcript and then the template's foot. */
  lemma CardTranscriptSlice(tpl: Template, t: string)
    ensures var c := CardOf(tpl, t);
      var x := Escape(t);
      |x| + |tpl.foot| <= |c| &&
      c[|c| - |tpl.foot| - |x|..|c| - |tpl.foot|] == x &&
      c[|c| - |tpl.foot|..] == tpl.foot
  {
    var d, p, x := DecimalString(WordCount(t)), Escape(Preview(t)), Escape(t);
    assert CardOf(tpl, t) == FillCard(tpl, d, p, x);
    FillTranscriptSlice(tpl, d, p, x);
  }

  /** Unescaping the block just before the template's foot gives the full transcript back. */
  lemma CardTranscript(tpl: Template, t: string)
    ensures var c := CardOf(tpl, t);
      var x := Escape(t);
      |x| + |tpl.foot| <= |c| &&
      Unescape(c[|c| - |tpl.foot| - |x|..|c| - |tpl.foot|]) == t
  {
    CardTranscriptSlice(tpl, t);
    UnescapeEscape(t);
  }

  /**
   * In a filled template whose head ends with `lab` and whose text after the count starts
   * with `unitText`, the card holds `lab`, the count and `unitText` side by side.
   */
  lemma FillCountLine(tpl: Template, count: string, preview: string, transcript: string, lab: string, unitText: string)
    requires |lab| <= |tpl.head| && tpl.head[|tpl.head| - |lab|..] == lab
    requires |unitText| <= |tpl.countTail| && tpl.countTail[..|unitText|] == unitText
    ensures var c := FillCard(tpl, count, preview, transcript);
      var i := |tpl.head| - |lab|;
      i + |lab + count + unitText| <= |c| && c[i..i + |lab + count + unitText|] == lab + count + unitText
  {
    var c := FillCard(tpl, count, preview, transcript);
    var i := |tpl.head| - |lab|;
    var rest := tpl.countTail[|unitText|..] + (preview + (tpl.sections + (transcript + tpl.foot)));
    assert tpl.head == tpl.head[..i] + lab;
    assert tpl.countTail == unitText + tpl.countTail[|unitText|..];
    assert c == tpl.head[..i] + (lab + count + unitText + rest);
  }

  /**
   * `c` holds the count line `- **Lunghezza trascrizione**: <count> parole` where the lesson
   * card's template puts it: its label ends the template's head.
   */
  predicate HasCountLine(c: string, count: string) {
    var line := CountLabel + count + CountUnit;
    var i := |CardTemplate.head| - |CountLabel|;
    0 <= i && i + |line| <= |c| && c[i..i + |line|] == line
  }

  /** Filled with any count, preview and transcript, the lesson card's template writes the count line. */
  lemma TemplateCountLine(count: string, preview: string, transcript: string)
    ensures HasCountLine(FillCard(CardTemplate, count, preview, transcript), count)
  {
    CountLine();
    FillCountLine(CardTemplate, count, preview, transcript, CountLabel, CountUnit);
  }

  /** The card's count line reads `- **Lunghezza trascrizione**: <n> parole`, with `n` the word count in decimal. */
  lemma CardCountLine(t: string)
    ensures HasCountLine(LessonCard(t), DecimalString(WordCount(t)))
  {
    TemplateCountLine(DecimalString(WordCount(t)), Escape(Preview(t)), Escape(t));
  }

  /**
   * In the lesson card's template the count stands between `- **Lunghezza trascrizione**: `
   * and ` parole`, so the card's count line reads `- **Lunghezza trascrizione**: <n> parole`.
   */
  lemma CountLine()
    ensures |CountLabel| <= |CardTemplate.head| && |CountUnit| <= |CardTemplate.countTail|
    ensures CardTemplate.head[|CardTemplate.head| - |CountLabel|..] == CountLabel
    ensures CardTemplate.countTail[..|CountUnit|] == CountUnit
  {
    var opening := "# 📚 Scheda di Lezione\n\n" + "## 📋 Informazioni Generali\n";
    assert CardHead == opening + CountLabel;
    assert CardHead[|opening|..] == CountLabel;
    var rest := "\n" + "- **Lingua**: Italiano/Inglese\n\n" + "## 📝 Anteprima Trascrizione\n";
    assert CountTail == CountUnit + rest;
  }
}
