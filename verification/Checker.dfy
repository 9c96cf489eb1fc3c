/** The self-update check (Checker.Check, internal/selfupdate/selfupdate.go) and the image each agent
    is told to move to (agentUpdateTarget, internal/server/selfupdate_run.go). */
module Checker {
  import opened Wrappers
  import opened ImageRef
  import opened Strings
  import Versions

  datatype Kind = NoUpdate | Release | Build

  datatype Current = Current(version: string, image: string, digest: string)

  /** The newest published release: its tag, "" or None when there is none. */
  datatype FetchAnswer = FetchError(message: string) | Fetched(tag: Option<string>)

  datatype DigestAnswer = Moved(latest: string) | Unmoved | DigestError

  datatype Report = Report(current: string, latest: string, kind: Kind, target: string, image: string,
                           latestDigest: string, available: bool, error: string)

  predicate Published(fetched: Option<FetchAnswer>)
  {
    fetched.Some? && fetched.value.Fetched? && fetched.value.tag.Some? && fetched.value.tag.value != ""
  }

  class UpdateChecker {
    var result: Report

    constructor (version: string)
      ensures result == Report(version, "", NoUpdate, "", "", "", false, "")
    {
      result := Report(version, "", NoUpdate, "", "", "", false, "");
    }

    /** fetched is None when no release fetcher is configured; likewise digest. */
    method Check(cur: Current, fetched: Option<FetchAnswer>, digest: Option<(string, string) -> DigestAnswer>)
      returns (res: Report)
      modifies this
      ensures result == res && res.current == cur.version && res.image == cur.image
      // A release is offered exactly when one is published that is strictly newer than this build.
      ensures res.kind == Release <==>
        Published(fetched) && Versions.CompareVersions(fetched.value.tag.value, cur.version) > 0
      ensures res.kind == Release ==>
        res.latest == fetched.value.tag.value && res.target == Retag(cur.image, res.latest)
      // A rebuild is offered exactly when no release is and the registry has moved the tag being run.
      ensures res.kind == Build <==> res.kind != Release && digest.Some? && cur.image != "" && cur.digest != "" &&
                                     digest.value(cur.image, cur.digest).Moved?
      ensures res.kind == Build ==> res.target == cur.image && res.latest == ""
      ensures res.latestDigest == if res.kind == Build then digest.value(cur.image, cur.digest).latest else ""
      // A published release is named whether or not it is newer, unless a rebuild takes its place.
      ensures res.kind != Build ==> res.latest == if Published(fetched) then fetched.value.tag.value else ""
      ensures res.available <==> res.kind != NoUpdate
      ensures res.kind == NoUpdate ==> res.target == ""
      // A check that could not run says so, and no other does.
      ensures fetched.Some? && fetched.value.FetchError? ==> res.error == fetched.value.message
      ensures fetched.Some? && fetched.value.Fetched? ==> (res.error == "" <==> Published(fetched))
      ensures fetched.None? ==> res.error == ""
    {
      res := Report(cur.version, "", NoUpdate, "", cur.image, "", false, "");
      if fetched.Some? {
        match fetched.value {
          case FetchError(message) =>
            res := res.(error := message);
          case Fetched(tag) =>
            if tag.None? || tag.value == "" {
              res := res.(error := "no published release found");
            } else {
              res := res.(latest := tag.value);
              if Versions.IsNewer(tag.value, cur.version) {
                res := res.(kind := Release);
                if cur.image != "" { res := res.(target := Retag(cur.image, tag.value)); }
              }
            }
        }
      }
      if res.kind == NoUpdate && digest.Some? && cur.image != "" && cur.digest != "" {
        var answer := digest.value(cur.image, cur.digest);
        if answer.Moved? {
          res := res.(kind := Build, target := cur.image, latestDigest := answer.latest, latest := "");
        }
      }
      res := res.(available := res.kind != NoUpdate);
      if !res.available { res := res.(target := ""); }
      result := res;
    }
  }

  // ---------------------------------------------------------------- what agents are told

  function AgentTarget(agentImage: string, kind: Kind, target: string): string
  {
    if kind == Build then
      if agentImage != "" then agentImage else target
    else if agentImage != "" && TagOf(target) != "" then Retag(agentImage, TagOf(target))
    else target
  }

  /** A rebuilt tag is pulled again under the agent's own reference; an agent that reported none is sent to the
      controller's, whatever the kind. */
  lemma RebuildKeepsTheReference(agentImage: string, kind: Kind, target: string)
    ensures agentImage != "" ==> AgentTarget(agentImage, Build, target) == agentImage
    ensures agentImage == "" ==> AgentTarget(agentImage, kind, target) == target
  {
  }

  /** A release run moves an agent to its own registry and repository, port included, with exactly the
      release tag and no digest. */
  lemma PlainReleaseKeepsRepository(image: string, agentImage: string, tag: string)
    requires image != "" && agentImage != "" && tag != "" && PlainTag(tag)
    ensures var to := AgentTarget(agentImage, Release, Retag(image, tag));
            Base(to) == Base(agentImage) && TagOf(to) == tag && '@' !in to
  {
    TagOfRetag(image, tag);
    TagOfRetag(agentImage, tag);
    RetagKeepsBase(agentImage, tag);
  }

  /** The agent gets its own reference retagged with the release tag exactly when the tag is plain, or
      when the tag cannot be read back at all and the agent happens to share the controller's
      repository. */
  lemma AgentFollowsReleaseIff(image: string, agentImage: string, tag: string)
    requires image != "" && agentImage != "" && tag != ""
    ensures AgentTarget(agentImage, Release, Retag(image, tag)) == Retag(agentImage, tag) <==>
              PlainTag(tag) || (Unreadable(tag) && Base(image) == Base(agentImage))
  {
    TagOfRetag(image, tag);
    NothingReadBackIff(image, tag);
    var target := Retag(image, tag);
    var read := TagOf(target);
    var mine := Base(agentImage) + ":";
    if read == "" {
      assert target == Base(image) + ":" + tag;
      AppendInjective(Base(image) + ":", mine, tag);
      AppendInjective(Base(image), Base(agentImage), ":");
    } else if read != tag {
      assert mine + read != mine + tag by {
        assert (mine + read)[|mine|..] == read && (mine + tag)[|mine|..] == tag;
      }
    }
  }

  lemma AppendInjective(a: string, b: string, c: string)
    ensures a + c == b + c <==> a == b
  {
    if a + c == b + c { assert (a + c)[..|a|] == a && (b + c)[..|b|] == b; }
  }

  /** A tag with a slash, such as "v2-a/b", is such a case: every agent is sent to the controller's own
      image, whatever mirror it runs from. */
  lemma SlashTagLeavesTheMirror(image: string, agentImage: string, tag: string)
    requires image != "" && agentImage != "" && '/' in tag && ':' !in tag && '@' !in tag
    ensures AgentTarget(agentImage, Release, Retag(image, tag)) == Base(image) + ":" + tag
    ensures Base(image) != Base(agentImage) ==>
      AgentTarget(agentImage, Release, Retag(image, tag)) != Retag(agentImage, tag)
  {
    SlashTagTarget(image, agentImage, tag);
    AgentFollowsReleaseIff(image, agentImage, tag);
  }

  lemma SlashTagTarget(image: string, agentImage: string, tag: string)
    requires image != "" && agentImage != "" && '/' in tag && ':' !in tag && '@' !in tag
    ensures AgentTarget(agentImage, Release, Retag(image, tag)) == Base(image) + ":" + tag
    ensures !PlainTag(tag)
  {
    var b := Base(image);
    var target := b + ":" + tag;
    BaseHasNoDigest(image);
    BeforeIs(target, '@', target);
    LastIndexOfJoin(b + ":", tag, '/');
    LastIndexOfJoin(b + ":", tag, ':');
    assert (b + ":")[|b|] == ':';
  }
}
