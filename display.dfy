/** The on-screen preview of the parsed sequence. */
module Display {

  /** Longest sequence shown in full. */
  const PreviewWidth: nat := 80

  /** Appended when the sequence is cut. */
  const Ellipsis: string := "..."

  /** The sequence itself when it is at most PreviewWidth characters long;
      otherwise its first PreviewWidth characters followed by the ellipsis. */
  function Preview(s: string): (p: string)
    ensures |s| <= PreviewWidth ==> p == s
    ensures |s| > PreviewWidth ==> |p| == PreviewWidth + 3 && p[..PreviewWidth] == s[..PreviewWidth] && p[PreviewWidth..] == "..."
  {
    if |s| > PreviewWidth then s[..PreviewWidth] + Ellipsis else s
  }

  /** The preview is as long as the sequence up to the width, and three longer
      than the width beyond it; it agrees with the sequence on every position
      up to the width. */
  lemma PreviewIsPrefix(s: string)
    ensures |Preview(s)| == if |s| <= PreviewWidth then |s| else PreviewWidth + |Ellipsis|
    ensures forall i :: 0 <= i < |s| && i < PreviewWidth ==> Preview(s)[i] == s[i]
  {
  }

  /** Previewing a preview changes nothing. */
  lemma PreviewIdempotent(s: string)
    ensures Preview(Preview(s)) == Preview(s)
  {
    var p := Preview(s);
    if |s| > PreviewWidth {
      assert p[..PreviewWidth] + Ellipsis == p;
    }
  }

  /** The preview shows a sequence unchanged exactly when it is short, or when it
      has the length of a cut preview and already ends in the ellipsis. */
  lemma PreviewFixpoint(s: string)
    ensures Preview(s) == s <==>
      |s| <= PreviewWidth || (|s| == PreviewWidth + 3 && s[PreviewWidth..] == Ellipsis)
  {
    if |s| > PreviewWidth && Preview(s) == s {
      assert |s| == PreviewWidth + 3;
      assert s[PreviewWidth..] == Preview(s)[PreviewWidth..];
    }
    if |s| == PreviewWidth + 3 && s[PreviewWidth..] == Ellipsis {
      assert s == s[..PreviewWidth] + s[PreviewWidth..];
    }
  }
}
