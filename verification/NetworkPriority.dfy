/** Request shapes, the admission filter and the eviction order of the network store. */
module NetworkPriority {
  import opened Options
  import JsText

  datatype Shape = Shape(
    httpMethod: string,
    url: string,
    status: int,
    resourceType: Option<string>,
    failureText: Option<string>,
    wasAborted: Option<bool>)

  const LOW_SIGNAL_RESOURCE_TYPES: set<string> := {"script", "stylesheet", "image", "font", "media"}
  const ABORTED := "net::err_aborted"

  /** The pattern `/^net::ERR_ABORTED\b/i` on the trimmed text. */
  predicate IsAbortFailureText(text: Option<string>) {
    text.Some? &&
    var t := JsText.Trim(text.value);
    && |t| >= |ABORTED|
    && JsText.Folded(t[..|ABORTED|]) == ABORTED
    && (|t| == |ABORTED| || !JsText.IsWordChar(t[|ABORTED|]))
  }

  /** An abort begins, after white space and in whatever case, with the name of the error and nothing that goes on with it. */
  ghost predicate IsAbort(text: string) {
    exists s :: JsText.IsTrimmed(text, s) && NamesAbort(s)
  }

  predicate NamesAbort(s: string) {
    && |s| >= |"net::ERR_ABORTED"|
    && (forall k :: 0 <= k < |"net::ERR_ABORTED"| ==> JsText.SameLetter(s[k], "net::ERR_ABORTED"[k]))
    && (|s| > |"net::ERR_ABORTED"| ==> !JsText.IsWordChar(s[|"net::ERR_ABORTED"|]))
  }

  lemma AbortIsExact(text: string)
    ensures IsAbortFailureText(Some(text)) <==> IsAbort(text)
  {
    var t := JsText.Trim(text);
    JsText.TrimIsTrimmed(text);
    forall s | JsText.IsTrimmed(text, s) ensures s == t {
      JsText.TrimmedIsUnique(text, s, t);
    }
    hide JsText.Trim, JsText.IsTrimmed;
    NamedIsFolded(t);
  }

  lemma NamedIsFolded(t: string)
    ensures NamesAbort(t) <==>
      && |t| >= |ABORTED| && JsText.Folded(t[..|ABORTED|]) == ABORTED
      && (|t| == |ABORTED| || !JsText.IsWordChar(t[|ABORTED|]))
  {
    var name := "net::ERR_ABORTED";
    assert |name| == |ABORTED| == 16;
    assert JsText.Folded(name) == ABORTED;
    if |t| >= 16 {
      var folded := JsText.Folded(t[..16]);
      forall k | 0 <= k < 16 ensures folded[k] == ABORTED[k] <==> JsText.SameLetter(t[k], name[k]) {
        JsText.FoldedAlike(t[k], name[k]);
        assert JsText.Folded(name)[k] == JsText.FoldCase(name[k]);
      }
      assert folded == ABORTED <==> forall k :: 0 <= k < 16 ==> folded[k] == ABORTED[k];
    }
  }

  function PriorityScore(shape: Shape): int {
    if shape.status >= 500 then 10
    else if shape.failureText.Some? && !IsAbortFailureText(shape.failureText) then 9
    else if shape.status >= 400 then 8
    else if shape.resourceType == Some("xhr") || shape.resourceType == Some("fetch") then 6
    else if IsAbortFailureText(shape.failureText) || shape.status == -1 || shape.wasAborted == Some(true) then 4
    else if shape.resourceType == None then 3
    else if shape.resourceType.value in LOW_SIGNAL_RESOURCE_TYPES then 1
    else 2
  }

  predicate IsLowSignalStaticAsset(shape: Shape) {
    && shape.resourceType.Some?
    && shape.resourceType.value in LOW_SIGNAL_RESOURCE_TYPES
    && shape.status < 400
    && shape.failureText == None
    && shape.wasAborted != Some(true)
  }

  /** The lowest score is given to exactly the shapes the filter drops, a failed status of -1 apart. */
  lemma LowestScoreIsTheFilter(shape: Shape)
    ensures PriorityScore(shape) == 1 <==> IsLowSignalStaticAsset(shape) && shape.status != -1
  {
    assert "xhr" !in LOW_SIGNAL_RESOURCE_TYPES by {
      assert |"xhr"| == 3;
      assert |"script"| == 6 && |"stylesheet"| == 10 && |"image"| == 5 && |"font"| == 4 && |"media"| == 5;
    }
    assert "fetch" !in LOW_SIGNAL_RESOURCE_TYPES by {
      assert "fetch"[0] == 'f' && "image"[0] == 'i' && "media"[0] == 'm';
      assert |"script"| == 6 && |"stylesheet"| == 10 && |"font"| == 4 && |"fetch"| == 5;
    }
  }
}
