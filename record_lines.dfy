/**
 * Record-line selection: the provider's routing line under which the
 * challenge record is created.
 */
module RecordLines {
  import opened Wrappers

  /** A `(LineName, LineId)` pair as listed by the provider for a domain. */
  datatype RecordLine = RecordLine(name: string, id: string)

  /** The provider's reserved id of its default line. */
  const DefaultLineId: string := "0"

  /** The position of the first line whose id is the default id, or |lines|. */
  function FirstDefault(lines: seq<RecordLine>): (j: nat)
    ensures j <= |lines|
    ensures j < |lines| ==> lines[j].id == DefaultLineId
    ensures forall i :: 0 <= i < j ==> lines[i].id != DefaultLineId
    decreases |lines|
  {
    if |lines| == 0 then 0
    else if lines[0].id == DefaultLineId then 0
    else 1 + FirstDefault(lines[1..])
  }

  /** The line to create the record under: the first default line, else the
      first line; None stands for the indexing error on an empty list. */
  function SelectLine(lines: seq<RecordLine>): (r: Option<RecordLine>)
    ensures r.None? <==> |lines| == 0
    ensures r.Some? ==> r.value in lines
  {
    if |lines| == 0 then None
    else
      var j := FirstDefault(lines);
      if j < |lines| then Some(lines[j]) else Some(lines[0])
  }

  /** What the selection promises: it fails only on an empty list; otherwise
      it returns the first line with the default id wherever it sits, and the
      first line when no line has that id. */
  lemma SelectLineSpec(lines: seq<RecordLine>)
    ensures SelectLine(lines).None? <==> |lines| == 0
    ensures forall i :: (0 <= i < |lines| && lines[i].id == DefaultLineId &&
              (forall i' :: 0 <= i' < i ==> lines[i'].id != DefaultLineId)) ==>
              SelectLine(lines) == Some(lines[i])
    ensures |lines| > 0 && (forall i :: 0 <= i < |lines| ==> lines[i].id != DefaultLineId) ==>
              SelectLine(lines) == Some(lines[0])
    ensures SelectLine(lines).Some? ==> SelectLine(lines).value in lines
  {
    var j := FirstDefault(lines);
    forall i | 0 <= i < |lines| && lines[i].id == DefaultLineId &&
               (forall i' :: 0 <= i' < i ==> lines[i'].id != DefaultLineId)
      ensures SelectLine(lines) == Some(lines[i])
    {
      assert !(j < i) && !(i < j);
    }
  }

  /** A listing with the default line first and another line after it. */
  lemma DefaultLineChosen()
    ensures SelectLine([RecordLine("Default", "0"), RecordLine("China", "10")]) == Some(RecordLine("Default", "0"))
  {
  }
}
