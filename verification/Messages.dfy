/** The parts of the message envelope that the voice pipeline reads and writes. */
module Messages {
  import opened Wrappers

  /** The streaming identity of a message: which turn of which dialogue it belongs to. */
  datatype TurnKey = TurnKey(session: Option<string>, turn: Option<int>)

  datatype TextChunk = TextChunk(text: string, key: TurnKey, isFinal: bool, drop: bool)

  /** PCM audio; `drop` marks silence. */
  datatype AudioChunk = AudioChunk(samples: seq<real>, sampleRate: nat, key: TurnKey, drop: bool)

  /** Concatenation of a list of texts. */
  function Join(texts: seq<string>): string {
    if texts == [] then "" else texts[0] + Join(texts[1..])
  }

  lemma {:induction false} JoinAppend(a: seq<string>, b: seq<string>)
    ensures Join(a + b) == Join(a) + Join(b)
  {
    if a == [] {
      assert a + b == b;
    } else {
      JoinAppend(a[1..], b);
      assert (a + b)[1..] == a[1..] + b && (a + b)[0] == a[0];
      assert Join(a + b) == a[0] + Join(a[1..] + b);
    }
  }

  lemma JoinSnoc(a: seq<string>, t: string)
    ensures Join(a + [t]) == Join(a) + t
  {
    JoinAppend(a, [t]);
  }

  function Texts(chunks: seq<TextChunk>): (ts: seq<string>)
    ensures |ts| == |chunks|
    ensures forall i :: 0 <= i < |chunks| ==> ts[i] == chunks[i].text
  {
    seq(|chunks|, i requires 0 <= i < |chunks| => chunks[i].text)
  }
}
