/**
 * `artifact_ref`: inline artifacts, revisions, and fetching a body that must hash to the
 * reference. Codecs other than UTF-8 and the answers of the network are inputs.
 */
module Artifact {
  import opened Wrappers
  import opened Text
  import opened Crypto
  import Base64
  import Utf8

  const INLINE_MAX_BYTES: nat := 64 * 1024

  datatype Inline = Inline(encoding: string, data: Option<string>)

  datatype Location = Location(transport: string, url: string)

  datatype ArtifactRef = ArtifactRef(
    artifactId: string, taskId: string, producer: string, sha256: string, revision: int, mediaType: string, size: nat,
    locations: seq<Location>, inline: Option<Inline>, createdAt: Option<string>, signature: Option<string>)

  /** Every one but `UnknownCodec` and `Unreachable` is a ValueError. */
  datatype ArtifactError = TooLarge | HashMismatch | NotFound | BadText | UnknownCodec | Unreachable

  /** `ArtifactRef.from_inline`. */
  function FromInline(artifactId: string, taskId: string, producer: string, data: seq<Byte>, mediaType: string,
                      revision: int): Result<ArtifactRef, ArtifactError>
  {
    if |data| > INLINE_MAX_BYTES then Failure(TooLarge)
    else Success(ArtifactRef(artifactId, taskId, producer, HashText(data), revision, mediaType, |data|, [],
                             Some(Inline("base64", Some(Base64.Encode(data)))), None, None))
  }

  /** `with_revision`: a new reference of the next revision, to which the locations are assigned. */
  function WithRevision(ref: ArtifactRef, data: seq<Byte>): (r: Result<ArtifactRef, ArtifactError>)
    ensures r.Success? <==> |data| <= INLINE_MAX_BYTES
    ensures r.Success? ==> r.value.revision == ref.revision + 1 && r.value.sha256 == HashText(data) && r.value.size == |data|
  {
    match FromInline(ref.artifactId, ref.taskId, ref.producer, data, ref.mediaType, ref.revision + 1)
    case Failure(e) => Failure(e)
    case Success(next) => Success(next.(locations := ref.locations))
  }

  function InlineBody(inline: Inline, codec: (string, string) -> Result<seq<Byte>, ArtifactError>):
    Result<seq<Byte>, ArtifactError>
    requires inline.data.Some?
  {
    var encoding := if inline.encoding == "" then "utf-8" else inline.encoding;
    if encoding == "base64" then
      match Base64.Decode(inline.data.value)
      case Some(body) => Success(body)
      case None => Failure(BadText)
    else if encoding == "utf-8" then Success(Utf8.Encode(inline.data.value))
    else codec(encoding, inline.data.value)
  }

  /** `materialize_artifact`. */
  function Materialize(ref: ArtifactRef, codec: (string, string) -> Result<seq<Byte>, ArtifactError>):
    Result<seq<Byte>, ArtifactError>
  {
    if ref.inline.None? || ref.inline.value.data.None? then Failure(NotFound)
    else
      match InlineBody(ref.inline.value, codec)
      case Failure(e) => Failure(e)
      case Success(body) => if HashText(body) != ref.sha256 then Failure(HashMismatch) else Success(body)
  }

  // ---------------------------------------------------------------- fetching

  /** What `http.get` of a location gives. */
  datatype Answer = Raised | Answer(status: int, body: seq<Byte>)

  predicate Fetchable(loc: Location) {
    loc.transport == "http" || loc.transport == "https" || "http" <= loc.url
  }

  /** The location is passed over: not an HTTP one, or answered with an error status. */
  predicate Skipped(loc: Location, answer: Answer) {
    !Fetchable(loc) || (answer.Answer? && answer.status >= 400)
  }

  /** What the first location that is not passed over makes of the fetch. */
  function FirstAnswer(locations: seq<Location>, answers: seq<Answer>, sha256: string): Result<seq<Byte>, ArtifactError>
    requires |answers| == |locations|
  {
    if locations == [] then Failure(NotFound)
    else if Skipped(locations[0], answers[0]) then FirstAnswer(locations[1..], answers[1..], sha256)
    else
      match answers[0]
      case Raised => Failure(Unreachable)
      case Answer(_, body) => if HashText(body) != sha256 then Failure(HashMismatch) else Success(body)
  }

  /** `fetch_artifact`; `answers[i]` is what a request for location `i` would get. */
  method FetchArtifact(ref: ArtifactRef, codec: (string, string) -> Result<seq<Byte>, ArtifactError>,
                       answers: seq<Answer>)
    returns (r: Result<seq<Byte>, ArtifactError>)
    requires |answers| == |ref.locations|
    ensures r == match Materialize(ref, codec)
                 case Success(body) => Success(body)
                 case Failure(HashMismatch) => Failure(HashMismatch)
                 case Failure(UnknownCodec) => Failure(UnknownCodec)
                 case Failure(Unreachable) => Failure(Unreachable)
                 case Failure(_) => FirstAnswer(ref.locations, answers, ref.sha256)
  {
    match Materialize(ref, codec) {
      case Success(body) =>
        return Success(body);
      case Failure(e) =>
        if e == HashMismatch || e == UnknownCodec || e == Unreachable {
          return Failure(e);
        }
    }
    for i := 0 to |ref.locations|
      invariant FirstAnswer(ref.locations, answers, ref.sha256) ==
                FirstAnswer(ref.locations[i..], answers[i..], ref.sha256)
    {
      var loc := ref.locations[i];
      assert ref.locations[i..][1..] == ref.locations[i + 1..] && answers[i..][1..] == answers[i + 1..];
      if loc.transport != "http" && loc.transport != "https" && !("http" <= loc.url) {
        continue;
      }
      match answers[i]
      case Raised =>
        return Failure(Unreachable);
      case Answer(status, body) =>
        if status >= 400 {
          continue;
        }
        if HashText(body) != ref.sha256 {
          return Failure(HashMismatch);
        }
        return Success(body);
    }
    return Failure(NotFound);
  }

  /** A body comes from the first location that is not passed over, and only if its hash fits. */
  lemma {:induction false} FirstAnswerDecides(locations: seq<Location>, answers: seq<Answer>, sha256: string, body: seq<Byte>)
    requires |answers| == |locations|
    ensures FirstAnswer(locations, answers, sha256) == Success(body) <==>
            exists k | 0 <= k < |locations| ::
              && !Skipped(locations[k], answers[k]) && answers[k].Answer? && answers[k].body == body
              && HashText(body) == sha256
              && forall i | 0 <= i < k :: Skipped(locations[i], answers[i])
  {
    if locations != [] && Skipped(locations[0], answers[0]) {
      FirstAnswerDecides(locations[1..], answers[1..], sha256, body);
      if FirstAnswer(locations, answers, sha256) == Success(body) {
        var k :| 0 <= k < |locations| - 1 && !Skipped(locations[1..][k], answers[1..][k])
                 && answers[1..][k].Answer? && answers[1..][k].body == body && HashText(body) == sha256
                 && forall i | 0 <= i < k :: Skipped(locations[1..][i], answers[1..][i]);
        forall i | 0 <= i < k + 1
          ensures Skipped(locations[i], answers[i])
        {
          if i > 0 {
            assert Skipped(locations[1..][i - 1], answers[1..][i - 1]);
          }
        }
        assert !Skipped(locations[k + 1], answers[k + 1]);
      }
      if k :| 0 <= k < |locations| && !Skipped(locations[k], answers[k])
              && answers[k].Answer? && answers[k].body == body && HashText(body) == sha256
              && forall i | 0 <= i < k :: Skipped(locations[i], answers[i])
      {
        assert !Skipped(locations[1..][k - 1], answers[1..][k - 1]);
      }
    }
  }

  /** Only HTTP answers with a status below 400 are looked at; a request that raises ends the fetch. */
  lemma PassedOver(loc: Location, status: int, body: seq<Byte>)
    ensures loc.transport == "http" || loc.transport == "https" ==>
              (Skipped(loc, Answer(status, body)) <==> status >= 400) && !Skipped(loc, Raised)
    ensures |loc.url| >= 4 && loc.url[..4] == "http" ==>
              (Skipped(loc, Answer(status, body)) <==> status >= 400) && !Skipped(loc, Raised)
    ensures loc.transport != "http" && loc.transport != "https" && (|loc.url| < 4 || loc.url[..4] != "http") ==>
              Skipped(loc, Answer(status, body)) && Skipped(loc, Raised)
  {
  }

  /** Nothing is found exactly when all are passed over; otherwise the first other location decides how it fails. */
  lemma {:induction false} FirstAnswerFails(locations: seq<Location>, answers: seq<Answer>, sha256: string)
    requires |answers| == |locations|
    ensures FirstAnswer(locations, answers, sha256) == Failure(NotFound) <==>
            forall i | 0 <= i < |locations| :: Skipped(locations[i], answers[i])
    ensures forall k | 0 <= k < |locations| && !Skipped(locations[k], answers[k])
                       && forall i | 0 <= i < k :: Skipped(locations[i], answers[i]) ::
              FirstAnswer(locations, answers, sha256) ==
              match answers[k]
              case Raised => Failure(Unreachable)
              case Answer(_, body) => if HashText(body) == sha256 then Success(body) else Failure(HashMismatch)
  {
    hide Skipped;
    if locations != [] && Skipped(locations[0], answers[0]) {
      var locs, anss := locations[1..], answers[1..];
      FirstAnswerFails(locs, anss, sha256);
      assert forall i | 0 <= i < |locs| :: locs[i] == locations[i + 1] && anss[i] == answers[i + 1];
      forall k | 0 <= k < |locations| && !Skipped(locations[k], answers[k])
                 && forall i | 0 <= i < k :: Skipped(locations[i], answers[i])
        ensures FirstAnswer(locations, answers, sha256) ==
                match answers[k]
                case Raised => Failure(Unreachable)
                case Answer(_, body) => if HashText(body) == sha256 then Success(body) else Failure(HashMismatch)
      {
        assert k >= 1 && locs[k - 1] == locations[k] && anss[k - 1] == answers[k];
      }
      if forall i | 0 <= i < |locs| :: Skipped(locs[i], anss[i]) {
        forall i | 0 <= i < |locations|
          ensures Skipped(locations[i], answers[i])
        {
          if i > 0 {
            assert locs[i - 1] == locations[i];
          }
        }
      }
    }
  }

  // ------------------------------------------------------------ inline data

  /** An inline reference is for at most 65536 bytes, and says what it is for. */
  lemma InlineSays(artifactId: string, taskId: string, producer: string, data: seq<Byte>, mediaType: string, revision: int)
    ensures var r := FromInline(artifactId, taskId, producer, data, mediaType, revision);
            && (|data| > 65536 ==> r == Failure(TooLarge))
            && (|data| <= 65536 ==>
                  && r.Success? && r.value.artifactId == artifactId && r.value.taskId == taskId
                  && r.value.producer == producer && r.value.mediaType == mediaType && r.value.revision == revision
                  && r.value.sha256 == HashText(data) && r.value.size == |data| && r.value.locations == []
                  && r.value.createdAt.None? && r.value.signature.None?
                  && r.value.inline == Some(Inline("base64", Some(Base64.Encode(data)))))
  {
  }

  /** The inline text is base64, or UTF-8 when nothing else is named, and its bytes have to hash to the reference. */
  lemma InlineMeans(ref: ArtifactRef, codec: (string, string) -> Result<seq<Byte>, ArtifactError>)
    ensures ref.inline.None? || ref.inline.value.data.None? ==> Materialize(ref, codec) == Failure(NotFound)
    ensures ref.inline.Some? && ref.inline.value.data.Some? ==>
              var encoding, text := ref.inline.value.encoding, ref.inline.value.data.value;
              && (encoding == "" || encoding == "utf-8" ==> Materialize(ref, codec) == Checked(ref, Utf8.Encode(text)))
              && (encoding == "base64" && Base64.Decode(text).Some? ==>
                    Materialize(ref, codec) == Checked(ref, Base64.Decode(text).value))
              && (encoding == "base64" && Base64.Decode(text).None? ==> Materialize(ref, codec) == Failure(BadText))
  {
    assert "base64"[0] != "utf-8"[0];
    hide Base64.Decode, Utf8.Encode;
  }

  /** The bytes, if their hash is the reference's. */
  function Checked(ref: ArtifactRef, body: seq<Byte>): (r: Result<seq<Byte>, ArtifactError>)
    ensures r.Success? <==> HashText(body) == ref.sha256
  {
    if HashText(body) == ref.sha256 then Success(body) else Failure(HashMismatch)
  }

  // ------------------------------------------------------------ main results

  /** Data up to the limit comes back from its own reference, whatever codecs there are. */
  lemma InlineRoundTrip(artifactId: string, taskId: string, producer: string, data: seq<Byte>, mediaType: string,
                        revision: int, codec: (string, string) -> Result<seq<Byte>, ArtifactError>)
    ensures FromInline(artifactId, taskId, producer, data, mediaType, revision).Success? <==> |data| <= INLINE_MAX_BYTES
    ensures |data| <= INLINE_MAX_BYTES ==>
              Materialize(FromInline(artifactId, taskId, producer, data, mediaType, revision).value, codec) == Success(data)
  {
    Base64.RoundTrip(data);
  }

  /**
   * Whatever a reference and the network hold, a body obtained for a reference that names the
   * hash of `data` is `data`.
   */
  lemma BodyIsGenuine(ref: ArtifactRef, codec: (string, string) -> Result<seq<Byte>, ArtifactError>,
                      answers: seq<Answer>, data: seq<Byte>, body: seq<Byte>)
    requires |answers| == |ref.locations| && ref.sha256 == HashText(data)
    requires Materialize(ref, codec) == Success(body) || FirstAnswer(ref.locations, answers, ref.sha256) == Success(body)
    ensures body == data
  {
    FirstAnswerDecides(ref.locations, answers, ref.sha256, body);
    HashTextInjective(body, data);
  }

  /** Successive `with_revision` calls. */
  function Revisions(ref: ArtifactRef, bodies: seq<seq<Byte>>): Result<ArtifactRef, ArtifactError>
    decreases |bodies|
  {
    if bodies == [] then Success(ref)
    else
      match WithRevision(ref, bodies[0])
      case Failure(e) => Failure(e)
      case Success(next) => Revisions(next, bodies[1..])
  }

  /** They count up, keep the identity of the artifact, and end with the last body. */
  lemma {:induction false} RevisionsAddUp(ref: ArtifactRef, bodies: seq<seq<Byte>>,
                                          codec: (string, string) -> Result<seq<Byte>, ArtifactError>)
    ensures Revisions(ref, bodies).Success? <==> forall i | 0 <= i < |bodies| :: |bodies[i]| <= INLINE_MAX_BYTES
    ensures Revisions(ref, bodies).Success? ==>
              var last := Revisions(ref, bodies).value;
              && last.revision == ref.revision + |bodies|
              && last.artifactId == ref.artifactId && last.taskId == ref.taskId && last.producer == ref.producer
              && last.locations == ref.locations && last.mediaType == ref.mediaType
              && (bodies != [] ==> Materialize(last, codec) == Success(bodies[|bodies| - 1]))
    decreases |bodies|
  {
    if bodies != [] {
      var first := WithRevision(ref, bodies[0]);
      InlineRoundTrip(ref.artifactId, ref.taskId, ref.producer, bodies[0], ref.mediaType, ref.revision + 1, codec);
      assert forall i | 0 <= i < |bodies[1..]| :: bodies[1..][i] == bodies[i + 1];
      if first.Success? {
        RevisionsAddUp(first.value, bodies[1..], codec);
        if |bodies| > 1 {
          assert bodies[1..][|bodies| - 2] == bodies[|bodies| - 1];
        }
        assert (forall i | 0 <= i < |bodies| :: |bodies[i]| <= INLINE_MAX_BYTES) <==>
               (forall i | 0 <= i < |bodies[1..]| :: |bodies[1..][i]| <= INLINE_MAX_BYTES) by {
          if forall i | 0 <= i < |bodies[1..]| :: |bodies[1..][i]| <= INLINE_MAX_BYTES {
            forall i | 0 <= i < |bodies|
              ensures |bodies[i]| <= INLINE_MAX_BYTES
            {
              if i > 0 {
                assert |bodies[1..][i - 1]| <= INLINE_MAX_BYTES;
              }
            }
          }
        }
      }
    }
  }
}
