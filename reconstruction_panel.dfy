/** The reconstruct button's handler (frontend/components/lab/ReconstructionPanel.tsx):
    stripping the `data:<mime>;base64,` envelope from the committed edit
    layers and building the reconstruction request. */
module ReconstructionPanel {
  import opened Common
  import LabSession

  /** JavaScript `s.split(sep)` for a one-character separator: the pieces
      between separators, always at least one (`"".split(",")` is `[""]`). */
  function Split(s: string, sep: char): (parts: seq<string>)
    ensures |parts| >= 1
    decreases |s|
  {
    if |s| == 0 then [""]
    else if s[0] == sep then [""] + Split(s[1..], sep)
    else
      var rest := Split(s[1..], sep);
      [[s[0]] + rest[0]] + rest[1..]
  }

  /** The inverse of `Split`: the pieces glued back with the separator. */
  function Join(parts: seq<string>, sep: char): string
    requires |parts| >= 1
  {
    if |parts| == 1 then parts[0] else parts[0] + [sep] + Join(parts[1..], sep)
  }

  lemma {:induction false} SplitJoin(s: string, sep: char)
    ensures Join(Split(s, sep), sep) == s
    ensures forall i :: 0 <= i < |Split(s, sep)| ==> sep !in Split(s, sep)[i]
    decreases |s|
  {
    if |s| > 0 {
      SplitJoin(s[1..], sep);
      var rest := Split(s[1..], sep);
      if s[0] == sep {
        assert Split(s, sep)[1..] == rest;
      } else {
        var parts := Split(s, sep);
        assert parts[1..] == rest[1..];
        if |rest| == 1 {
          assert Join(parts, sep) == [s[0]] + rest[0];
        } else {
          assert Join(rest, sep) == rest[0] + [sep] + Join(rest[1..], sep);
          assert Join(parts, sep) == [s[0]] + rest[0] + [sep] + Join(rest[1..], sep);
        }
        assert s == [s[0]] + s[1..];
      }
    }
  }

  /** A string without the separator is not split. */
  lemma {:induction false} SplitWithoutSeparator(s: string, sep: char)
    requires sep !in s
    ensures Split(s, sep) == [s]
    decreases |s|
  {
    if |s| > 0 {
      SplitWithoutSeparator(s[1..], sep);
      assert [s[0]] + s[1..] == s;
    }
  }

  /** Splitting at the first separator: the first piece is everything before
      it and the remaining pieces are those of the rest. */
  lemma {:induction false} SplitAtFirst(a: string, sep: char, b: string)
    requires sep !in a
    ensures Split(a + [sep] + b, sep) == [a] + Split(b, sep)
    decreases |a|
  {
    if |a| == 0 {
      assert a + [sep] + b == [sep] + b;
      assert ([sep] + b)[1..] == b;
    } else {
      SplitAtFirst(a[1..], sep, b);
      assert (a + [sep] + b)[1..] == a[1..] + [sep] + b;
      assert [a[0]] + a[1..] == a;
    }
  }

  /** `cleanBase64(url)`: `undefined` for a missing or empty URL, otherwise
      `url.split(',')[1]`, which is `undefined` when there is no comma. */
  function CleanBase64(url: Option<string>): (r: Option<string>)
    ensures r.Some? <==> Truthy(url) && ',' in url.value
    ensures r.Some? ==> ',' !in r.value
  {
    if !Truthy(url) then None
    else
      var parts := Split(url.value, ',');
      SplitJoin(url.value, ',');
      if |parts| > 1 then Some(parts[1]) else None
  }

  /** Without a comma there is nothing to extract. */
  lemma NoCommaGivesNothing(url: string)
    requires ',' !in url
    ensures CleanBase64(Some(url)) == None
  {
    if url != "" {
      SplitWithoutSeparator(url, ',');
    }
  }

  /** With at least one comma the result is the text between the first comma
      and the next one (or the end): anything after a second comma is
      dropped. */
  lemma CleanBase64TakesSecondPiece(head: string, body: string, tail: string)
    requires ',' !in head && ',' !in body
    ensures CleanBase64(Some(head + "," + body)) == Some(body)
    ensures CleanBase64(Some(head + "," + body + "," + tail)) == Some(body)
  {
    SplitAtFirst(head, ',', body);
    SplitWithoutSeparator(body, ',');
    assert head + "," + body + "," + tail == head + [','] + (body + [','] + tail);
    SplitAtFirst(head, ',', body + [','] + tail);
    SplitAtFirst(body, ',', tail);
  }

  /** Envelope round trip: stripping a data URL built from a MIME type and a
      base64 payload (the base64 alphabet has no comma) gives the payload. */
  lemma StripDataUrlEnvelope(mime: string, payload: string)
    requires ',' !in mime && ',' !in payload
    ensures CleanBase64(Some("data:" + mime + ";base64," + payload)) == Some(payload)
  {
    var head := "data:" + mime + ";base64";
    assert "data:" + mime + ";base64," + payload == head + "," + payload;
    CleanBase64TakesSecondPiece(head, payload, "");
  }

  datatype ReconstructionMode = Full | Patch

  /** The body of `POST /api/reconstruct`; an absent edit is left out of the JSON. */
  datatype ReconstructionRequest = ReconstructionRequest(
    imageId: string,
    mode: ReconstructionMode,
    editedDx: Option<string>,
    editedDy: Option<string>)

  /** What the awaited API call produced: a response, or a thrown error. */
  datatype ApiOutcome = Responded(imageId: string, reconstructedUrl: string) | Failed

  /** The panel's local state (`isReconstructing`) and the session it reads
      and writes. The `await` splits `handleReconstruct` in two: `Begin` runs
      up to the request, `Finish` runs when the request settles. */
  class Panel {
    const lab: LabSession.LabState
    var isReconstructing: bool

    constructor (lab: LabSession.LabState)
      ensures this.lab == lab && !isReconstructing
    {
      this.lab := lab;
      isReconstructing := false;
    }

    /** The button is enabled unless a request is outstanding or no image is loaded. */
    predicate ButtonEnabled()
      reads this, lab
      ensures ButtonEnabled() ==> !isReconstructing && lab.imageId.Some? && lab.imageId.value != ""
    {
      !isReconstructing && Truthy(lab.imageId)
    }

    method BeginReconstruct() returns (request: Option<ReconstructionRequest>)
      modifies this
      ensures old(ButtonEnabled()) ==> request.Some?
      ensures request.Some? ==> !ButtonEnabled()
      ensures !Truthy(lab.imageId) ==> request == None && isReconstructing == old(isReconstructing)
      ensures Truthy(lab.imageId) ==>
        && isReconstructing
        && request == Some(ReconstructionRequest(lab.imageId.value, Full,
                                                 CleanBase64(lab.dxEditDataUrl),
                                                 CleanBase64(lab.dyEditDataUrl)))
    {
      if !Truthy(lab.imageId) {
        return None;
      }
      isReconstructing := true;
      request := Some(ReconstructionRequest(lab.imageId.value, Full,
                                            CleanBase64(lab.dxEditDataUrl),
                                            CleanBase64(lab.dyEditDataUrl)));
    }

    method FinishReconstruct(outcome: ApiOutcome)
      modifies this, lab
      ensures !isReconstructing
      ensures outcome.Responded? ==>
        lab.State() == old(lab.State()).(reconstructedUrl := Some(outcome.reconstructedUrl))
      ensures outcome.Failed? ==> lab.State() == old(lab.State())
    {
      if outcome.Responded? {
        lab.SetReconstructedUrl(Some(outcome.reconstructedUrl));
      }
      isReconstructing := false;
    }
  }
}
