/** The text a script card shows for the code of a script (main.py:30). */
module Card {

  /** How many characters of the code the card shows. */
  const PreviewLength: nat := 80

  /** `code[:80] + "..."`: at most 80 characters of the code, always followed by an ellipsis. */
  function Preview(code: string): (r: string)
    ensures |r| == (if |code| < PreviewLength then |code| else PreviewLength) + 3
    ensures |r| <= PreviewLength + 3
    ensures r[|r| - 3..] == "..."
    ensures r[..|r| - 3] <= code
    ensures |code| <= PreviewLength ==> r == code + "..."
  {
    (if |code| <= PreviewLength then code else code[..PreviewLength]) + "..."
  }

  /** Two codes that agree on their first 80 characters get the same preview. */
  lemma {:induction false} PreviewIgnoresTail(a: string, b: string)
    requires |a| >= PreviewLength && |b| >= PreviewLength
    requires a[..PreviewLength] == b[..PreviewLength]
    ensures Preview(a) == Preview(b)
  {
    var pa, pb := Preview(a), Preview(b);
    assert pa[..PreviewLength] == a[..PreviewLength];
    assert pb[..PreviewLength] == b[..PreviewLength];
    assert pa == pa[..PreviewLength] + pa[PreviewLength..];
    assert pb == pb[..PreviewLength] + pb[PreviewLength..];
  }
}
