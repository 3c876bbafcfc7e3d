/** Topic names of the publish/subscribe channel. */
module Util {
  import Strings

  /** `topic.subtopic(b)`: `b` appended verbatim to `topic` after a `/`. An
      empty `b` leaves a trailing `/`; a `b` that starts with `/` gives `//`. */
  function Subtopic(topic: string, b: string): (t: string)
    ensures |t| == |topic| + |b| + 1
    ensures t[..|topic|] == topic && t[|topic|] == '/' && t[|topic| + 1..] == b
  {
    topic + "/" + b
  }

  /** For a topic without `/`, the subtopic's first `/` is the one that
      `Subtopic` inserted: splitting the result on `/` gives the topic back
      as the first level, followed by the levels of `b`. */
  lemma SubtopicLevels(topic: string, b: string)
    requires forall i :: 0 <= i < |topic| ==> topic[i] != '/'
    ensures Strings.Split(Subtopic(topic, b), "/") == [topic] + Strings.Split(b, "/")
  {
    forall j: nat
      ensures !Strings.OccursAt(topic, "/", j)
    {
      if j + 1 <= |topic| {
        assert topic[j..j + 1] == [topic[j]];
      }
    }
    Strings.NoOccurrenceMeansNotFound(topic, "/");
    Strings.UniqueLastCharUnbordered("/");
    Strings.SplitAfterFreePrefix(topic, "/", b);
  }
}
