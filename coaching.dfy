/**
 * The deterministic steps around the two Gemini requests in server.js: the
 * extraction of a JSON object from a model reply, the scene list sent in the
 * prompt, the terrain and framework choices, and the practice-drill
 * fallback.
 */
module Coaching {
  import opened Wrappers
  import opened Text
  import opened KeyFrames
  import opened Segmentation

  // ---------------------------------------------------------------------
  // JSON extraction from a model reply

  const JsonFence: string := "```json"
  const Fence: string := "```"

  /** No backquote anywhere in `s`. */
  predicate NoBackquote(s: string) {
    forall i :: 0 <= i < |s| ==> s[i] != '`'
  }

  /**
   * The fence step on trimmed text: the piece after the first "```json"
   * (else the first "```") up to the next "```", trimmed; text with no
   * fence passes through.
   */
  function FenceContents(t: string): (r: string)
    ensures !Contains(t, Fence) ==> r == t
  {
    JsonFenceIsFence(t);
    if Contains(t, JsonFence) then Trim(Before(SecondPiece(t, JsonFence), Fence))
    else if Contains(t, Fence) then Trim(Before(SecondPiece(t, Fence), Fence))
    else t
  }

  /** Every "```json" marker begins with a "```" fence. */
  lemma JsonFenceIsFence(t: string)
    ensures Contains(t, JsonFence) ==> Contains(t, Fence)
  {
    if Contains(t, JsonFence) {
      var k := IndexOf(t, JsonFence).value;
      assert t[k..k + |Fence|] == t[k..k + |JsonFence|][..|Fence|];
      assert OccursAt(t, Fence, k);
    }
  }

  /**
   * `jsonText.match(/\{[\s\S]*\}/)`: from the first `{` to the last `}`
   * when that `}` comes after it; otherwise the text is kept.
   */
  function NarrowBraces(s: string): (r: string)
    ensures |r| <= |s|
    ensures r == s || (2 <= |r| && r[0] == '{' && r[|r| - 1] == '}')
  {
    match FirstIndexOfChar(s, '{')
    case None => s
    case Some(i) =>
      match LastIndexOfChar(s, '}')
      case None => s
      case Some(j) => if i < j then s[i..j + 1] else s
  }

  /** The text handed to `JSON.parse`: trim, strip a code fence, narrow to the braces. */
  function ExtractJson(text: string): string {
    NarrowBraces(FenceContents(Trim(text)))
  }

  /**
   * A reply `pre + "```json" + body + "```" + post` yields the trimmed body,
   * provided neither `pre` nor `body` holds a backquote and `post` does not
   * start with one.
   */
  lemma JsonFenceBody(pre: string, body: string, post: string)
    requires NoBackquote(pre) && NoBackquote(body)
    requires post == [] || post[0] != '`'
    ensures FenceContents(pre + JsonFence + body + Fence + post) == Trim(body)
  {
    var t := pre + JsonFence + body + Fence + post;
    assert t[|pre|..|pre| + |JsonFence|] == JsonFence;
    forall j | 0 <= j < |pre|
      ensures !OccursAt(t, JsonFence, j)
    {
      assert t[j] == pre[j];
      if j + |JsonFence| <= |t| {
        assert t[j..j + |JsonFence|][0] == t[j];
      }
    }
    FirstOccurrence(t, JsonFence, |pre|);
    var u := t[|pre| + |JsonFence|..];
    assert u == body + Fence + post;
    assert SecondPiece(t, JsonFence) == Before(u, JsonFence);
    AfterBodyFence(body, post, JsonFence);
  }

  /**
   * A reply `pre + "```" + body + "```" + post` with no "```json" anywhere
   * yields the trimmed body, under the same conditions on `pre`, `body` and
   * `post`.
   */
  lemma PlainFenceBody(pre: string, body: string, post: string)
    requires NoBackquote(pre) && NoBackquote(body)
    requires post == [] || post[0] != '`'
    requires !Contains(pre + Fence + body + Fence + post, JsonFence)
    ensures FenceContents(pre + Fence + body + Fence + post) == Trim(body)
  {
    var t := pre + Fence + body + Fence + post;
    assert t[|pre|..|pre| + |Fence|] == Fence;
    forall j | 0 <= j < |pre|
      ensures !OccursAt(t, Fence, j)
    {
      assert t[j] == pre[j];
      if j + |Fence| <= |t| {
        assert t[j..j + |Fence|][0] == t[j];
      }
    }
    FirstOccurrence(t, Fence, |pre|);
    var u := t[|pre| + |Fence|..];
    assert u == body + Fence + post;
    assert SecondPiece(t, Fence) == Before(u, Fence);
    AfterBodyFence(body, post, Fence);
  }

  /** A backquote-free stretch of `s` holds no fence start. */
  lemma NoFenceIn(s: string, sep: string, lo: nat, hi: nat)
    requires sep == JsonFence || sep == Fence
    requires hi <= |s| && forall j :: lo <= j < hi ==> s[j] != '`'
    ensures forall j :: lo <= j < hi ==> !OccursAt(s, sep, j)
  {
    forall j | lo <= j < hi
      ensures !OccursAt(s, sep, j)
    {
      if j + |sep| <= |s| {
        assert s[j..j + |sep|][0] == s[j];
      }
    }
  }

  /**
   * Right after `body`, the closing "```" cannot be the first backquotes of
   * another opening marker unless `post` starts with a backquote.
   */
  lemma NoOpenInsideClose(body: string, post: string, open: string)
    requires open == JsonFence || open == Fence
    requires post == [] || post[0] != '`'
    ensures forall p :: |body| < p < |body| + |Fence| ==> !OccursAt(body + Fence + post, open, p)
  {
    var u := body + Fence + post;
    forall p | |body| < p < |body| + |Fence|
      ensures !OccursAt(u, open, p)
    {
      if p + |open| <= |u| {
        assert u[|body| + |Fence|] == post[0];
        if p == |body| + 1 {
          assert u[p..p + |open|][2] == post[0];
        } else {
          assert u[p..p + |open|][1] == post[0];
        }
      }
    }
  }

  /**
   * After the opening fence, `split(open)[0].split("```")[0]` of
   * `body + "```" + post` is `body`.
   */
  lemma AfterBodyFence(body: string, post: string, open: string)
    requires open == JsonFence || open == Fence
    requires NoBackquote(body)
    requires post == [] || post[0] != '`'
    ensures Before(Before(body + Fence + post, open), Fence) == body
  {
    var u := body + Fence + post;
    var r1 := Before(u, open);
    NoFenceIn(u, open, 0, |body|);
    NoOpenInsideClose(body, post, open);
    assert |r1| == |body| || |r1| >= |body| + |Fence|;
    assert r1[..|body|] == body;
    NoFenceIn(r1, Fence, 0, |body|);
    if |r1| == |body| {
      assert r1 == body;
      assert !Contains(r1, Fence);
    } else {
      assert r1[|body|..|body| + |Fence|] == u[|body|..|body| + |Fence|] == Fence;
      FirstOccurrence(r1, Fence, |body|);
    }
  }

  /**
   * `match` takes the first `{` and the last `}`: when `{` first occurs at
   * `i`, `}` last occurs at `j`, and `i < j`, the result is `s[i..j]`
   * inclusive.
   */
  lemma NarrowBracesSpan(s: string, i: nat, j: nat)
    requires i < j < |s| && s[i] == '{' && s[j] == '}'
    requires forall k :: 0 <= k < i ==> s[k] != '{'
    requires forall k :: j < k < |s| ==> s[k] != '}'
    ensures NarrowBraces(s) == s[i..j + 1]
  {
    var fi := FirstIndexOfChar(s, '{');
    var lj := LastIndexOfChar(s, '}');
    assert fi == Some(i) by {
      if fi.Some? && fi.value < i { }
    }
    assert lj == Some(j) by {
      if lj.Some? && lj.value > j { }
    }
  }

  /** With no `{` followed later by a `}`, the text is kept as it is. */
  lemma NarrowBracesNoMatch(s: string)
    requires forall i, j :: 0 <= i < j < |s| ==> !(s[i] == '{' && s[j] == '}')
    ensures NarrowBraces(s) == s
  {
    var fi := FirstIndexOfChar(s, '{');
    var lj := LastIndexOfChar(s, '}');
    assert fi.Some? && lj.Some? ==> s[fi.value] == '{' && s[lj.value] == '}';
  }

  /** Narrowing twice narrows no further. */
  lemma NarrowBracesIdempotent(s: string)
    ensures NarrowBraces(NarrowBraces(s)) == NarrowBraces(s)
  {
    var r := NarrowBraces(s);
    if r != s {
      var i := FirstIndexOfChar(s, '{').value;
      var j := LastIndexOfChar(s, '}').value;
      assert r == s[i..j + 1];
      NarrowBracesSpan(r, 0, |r| - 1);
    }
  }

  // ---------------------------------------------------------------------
  // The scene list in the coaching prompt

  /**
   * `scenes.map(scene => ...)` for one scene: each frame field is kept when
   * it is truthy (non-zero) and otherwise recomputed as
   * `Math.floor(seconds * fps)`.
   */
  function SceneWithFrames(scene: Segment, fps: real): (r: Segment)
    ensures r.id == scene.id && r.start == scene.start && r.end == scene.end && r.freezeAt == scene.freezeAt
    ensures scene.startFrame != 0 ==> r.startFrame == scene.startFrame
    ensures scene.startFrame == 0 ==> r.startFrame == FrameAt(scene.start, fps)
    ensures scene.endFrame != 0 ==> r.endFrame == scene.endFrame
    ensures scene.endFrame == 0 ==> r.endFrame == FrameAt(scene.end, fps)
    ensures scene.freezeFrame != 0 ==> r.freezeFrame == scene.freezeFrame
    ensures scene.freezeFrame == 0 ==> r.freezeFrame == FrameAt(scene.freezeAt, fps)
    ensures FramesAgree(scene, fps) ==> r == scene
  {
    Segment(
      scene.id,
      if scene.startFrame != 0 then scene.startFrame else FrameAt(scene.start, fps),
      if scene.endFrame != 0 then scene.endFrame else FrameAt(scene.end, fps),
      if scene.freezeFrame != 0 then scene.freezeFrame else FrameAt(scene.freezeAt, fps),
      scene.start, scene.end, scene.freezeAt)
  }

  function ScenesWithFrames(scenes: seq<Segment>, fps: real): (r: seq<Segment>)
    ensures |r| == |scenes|
    ensures forall i :: 0 <= i < |r| ==> r[i] == SceneWithFrames(scenes[i], fps)
  {
    seq(|scenes|, i requires 0 <= i < |scenes| => SceneWithFrames(scenes[i], fps))
  }

  /**
   * On the scenes the upload route computes, the `||` fallbacks change no
   * value: a zero frame field (scene 1's start frame, on either cut) is
   * recomputed as that same frame, so the prompt carries exactly the
   * engine's segments.
   */
  lemma UploadPromptScenes(metaProbe: Probe, samplerProbe: Probe, declared: Option<real>)
    requires ValidProbe(metaProbe) && ValidProbe(samplerProbe)
    requires declared.Some? ==> declared.value >= 0.0
    ensures var scenes := UploadScenes(metaProbe, samplerProbe, declared);
      ScenesWithFrames(scenes, UploadMetadata(metaProbe, declared).fps) == scenes
  {
    UploadScenesOrdered(metaProbe, samplerProbe, declared);
  }

  // ---------------------------------------------------------------------
  // Request fields, terrain and framework

  /**
   * `req.body.field || fallback` for a text field: the result is the field
   * or the fallback, never empty when the fallback is not, and the field
   * itself whenever it is sent non-empty.
   */
  function FieldOr(field: Option<string>, fallback: string): (r: string)
    ensures r == fallback || field == Some(r)
    ensures fallback != "" ==> r != ""
    ensures field.Some? && field.value != "" ==> r == field.value
  {
    if field.Some? && field.value != "" then field.value else fallback
  }

  /** The keys of the terrain table. */
  const Terrains: set<string> := {"flat", "blue", "black", "mogul", "freestyle"}

  /**
   * The names every plain JavaScript object inherits from `Object.prototype`.
   * Each of them reads as a truthy value (a function, or the prototype
   * itself for `__proto__`), so a lookup by one of them never falls back.
   */
  const ObjectPrototypeMembers: set<string> := {
    "constructor", "hasOwnProperty", "isPrototypeOf", "propertyIsEnumerable",
    "toString", "toLocaleString", "valueOf", "__proto__",
    "__defineGetter__", "__defineSetter__", "__lookupGetter__", "__lookupSetter__"
  }

  /** What `terrainInfo[terrain]` finds: an entry of the table, or a member inherited from `Object.prototype`. */
  datatype TerrainEntry = TableEntry(key: string) | InheritedMember(member: string)

  /**
   * `terrainInfo[terrain] || terrainInfo['blue']`: a key of the table gives
   * its entry, an inherited member name gives that member, and any other
   * name falls back to the `blue` entry.
   */
  function ResolveTerrain(terrain: string): (r: TerrainEntry)
    ensures r.TableEntry? ==> r.key in Terrains
    ensures r == TableEntry(terrain) <==> terrain in Terrains
    ensures r.InheritedMember? <==> terrain in ObjectPrototypeMembers
    ensures r.InheritedMember? ==> r.member == terrain
    ensures terrain !in Terrains && terrain !in ObjectPrototypeMembers ==> r == TableEntry("blue")
  {
    if terrain in Terrains then TableEntry(terrain)
    else if terrain in ObjectPrototypeMembers then InheritedMember(terrain)
    else TableEntry("blue")
  }

  /**
   * `currentTerrain.name` for an inherited member: the `Object` function's
   * name for `constructor`, `undefined` for the prototype itself, and the
   * method's own name otherwise.
   */
  function InheritedName(member: string): (r: Option<string>)
    requires member in ObjectPrototypeMembers
    ensures r.None? <==> member == "__proto__"
    ensures member != "constructor" && r.Some? ==> r.value == member
  {
    if member == "constructor" then Some("Object")
    else if member == "__proto__" then None
    else Some(member)
  }

  /** The terrain a lookup settles on resolves to itself again. */
  lemma ResolveTerrainStable(terrain: string)
    ensures var r := ResolveTerrain(terrain);
      r.TableEntry? ==> ResolveTerrain(r.key) == r
  {
  }

  /** The form field `terrain=constructor` bypasses the `blue` fallback, and the prompt names the terrain `Object`. */
  lemma ConstructorTerrainIsObject()
    ensures ResolveTerrain("constructor") == InheritedMember("constructor")
    ensures InheritedName(ResolveTerrain("constructor").member) == Some("Object")
  {
  }

  datatype Sport = Ski | Snowboard | OtherSport(name: string)

  /** The `sport` field as the server compares it. */
  function ParseSport(sport: string): (r: Sport)
    ensures r.Ski? <==> sport == "ski"
    ensures r.Snowboard? <==> sport == "snowboard"
  {
    if sport == "ski" then Ski else if sport == "snowboard" then Snowboard else OtherSport(sport)
  }

  /** `sport === 'ski' ? 'CSIA' : 'CASI'`. */
  function Framework(sport: string): (r: string)
    ensures r == "CSIA" <==> sport == "ski"
    ensures r == "CSIA" || r == "CASI"
  {
    if ParseSport(sport).Ski? then "CSIA" else "CASI"
  }

  // ---------------------------------------------------------------------
  // Practice drills

  /** One recommended drill, by its English name. */
  datatype Drill = Drill(nameEn: string)

  const SnowboardDrills: seq<Drill> := [Drill("Nose Pressure Drill"), Drill("J-turn"), Drill("Pendulum / Falling Leaf")]
  const SkiDrills: seq<Drill> := [Drill("Basic Parallel Turn"), Drill("Edging Exercise")]

  /** `getDefaultRecommendations(sport)`: the snowboard list for "snowboard", the ski list for anything else. */
  function DefaultRecommendations(sport: string): (r: seq<Drill>)
    ensures sport == "snowboard" ==> |r| == 3
    ensures sport != "snowboard" ==> |r| == 2
  {
    if ParseSport(sport).Snowboard? then SnowboardDrills else SkiDrills
  }

  /**
   * A sport that is neither "ski" nor "snowboard" is coached in the
   * snowboard framework (CASI) but falls back to the ski drills.
   */
  lemma OtherSportMixesLists(sport: string)
    requires sport != "ski" && sport != "snowboard"
    ensures Framework(sport) == Framework("snowboard") == "CASI"
    ensures DefaultRecommendations(sport) == DefaultRecommendations("ski")
    ensures DefaultRecommendations(sport) != DefaultRecommendations("snowboard")
  {
  }

  /**
   * What the practice request ends with: the request or its parse failed,
   * or the parsed reply with or without a `recommendations` list.
   */
  datatype PracticeReply = PracticeFailed | PracticeParsed(recommendations: Option<seq<Drill>>)

  /** `generatePracticeRecommendations`: the reply's list, `[]` when it has none, the defaults on failure. */
  function PracticeRecommendations(sport: string, reply: PracticeReply): (r: seq<Drill>)
    ensures reply.PracticeFailed? ==> r == DefaultRecommendations(sport) && |r| >= 2
    ensures reply.PracticeParsed? && reply.recommendations.Some? ==> r == reply.recommendations.value
    ensures reply.PracticeParsed? && reply.recommendations.None? ==> r == []
  {
    match reply
    case PracticeFailed => DefaultRecommendations(sport)
    case PracticeParsed(recs) => recs.GetOr([])
  }
}
