/**
 * Content and layout helpers of a celestial body (src/components/CelestialBody.js):
 * the paragraph grouping of the info panel text, the panel-config lookup, the
 * texture filter, the description's first-newline doubling and the angles of
 * the letters of the curved title.
 */
module CelestialBody {
  import opened Wrappers

  // ---------------------------------------------------------------------------
  // String.prototype.split with a one-character separator

  /** `s.split(sep)`: the maximal separator-free pieces, always at least one. */
  function Split(s: string, sep: char): (parts: seq<string>)
    ensures |parts| >= 1
    ensures forall i :: 0 <= i < |parts| ==> sep !in parts[i]
    decreases |s|
  {
    if s == [] then [""]
    else if s[0] == sep then [""] + Split(s[1..], sep)
    else
      var rest := Split(s[1..], sep);
      [[s[0]] + rest[0]] + rest[1..]
  }

  /** `parts.join(sep)`. */
  function Join(parts: seq<string>, sep: char): (r: string)
    requires |parts| >= 1
  {
    if |parts| == 1 then parts[0] else parts[0] + [sep] + Join(parts[1..], sep)
  }

  /** Splitting loses nothing: joining the pieces gives the text back. */
  lemma {:induction false} JoinSplit(s: string, sep: char)
    ensures Join(Split(s, sep), sep) == s
    decreases |s|
  {
    if s == [] {
    } else if s[0] == sep {
      JoinSplit(s[1..], sep);
      assert s == [sep] + s[1..];
    } else {
      JoinSplit(s[1..], sep);
      var rest := Split(s[1..], sep);
      if |rest| == 1 {
        assert s == [s[0]] + rest[0];
      } else {
        assert Join(rest, sep) == rest[0] + [sep] + Join(rest[1..], sep);
        assert s == [s[0]] + s[1..];
      }
    }
  }

  // ---------------------------------------------------------------------------
  // formatContent

  predicate NoBlank(lines: seq<string>) {
    forall j :: 0 <= j < |lines| ==> lines[j] != ""
  }

  /** The length of the leading run of non-empty lines. */
  function RunLength(lines: seq<string>): (k: nat)
    ensures k <= |lines|
    ensures NoBlank(lines[..k])
    ensures k < |lines| ==> lines[k] == ""
  {
    if lines == [] || lines[0] == "" then 0 else 1 + RunLength(lines[1..])
  }

  /** The maximal runs of non-empty lines, in order: blank lines only separate them. */
  function Paragraphs(lines: seq<string>): (r: seq<seq<string>>)
    decreases |lines|
  {
    if lines == [] then []
    else if lines[0] == "" then Paragraphs(lines[1..])
    else
      var k := RunLength(lines);
      [lines[..k]] + Paragraphs(lines[k..])
  }

  /** No group is empty and no group holds a blank line. */
  lemma {:induction false} ParagraphsWellFormed(lines: seq<string>)
    ensures forall i :: 0 <= i < |Paragraphs(lines)| ==> Paragraphs(lines)[i] != [] && NoBlank(Paragraphs(lines)[i])
    decreases |lines|
  {
    if lines == [] {
    } else if lines[0] == "" {
      ParagraphsWellFormed(lines[1..]);
    } else {
      var k := RunLength(lines);
      ParagraphsWellFormed(lines[k..]);
      assert Paragraphs(lines) == [lines[..k]] + Paragraphs(lines[k..]);
    }
  }

  lemma {:induction false} RunLengthOfRun(c: seq<string>, rest: seq<string>)
    requires NoBlank(c)
    ensures RunLength(c + [""] + rest) == |c|
    ensures RunLength(c) == |c|
    decreases |c|
  {
    if c != [] {
      assert (c + [""] + rest)[1..] == c[1..] + [""] + rest;
      RunLengthOfRun(c[1..], rest);
    }
  }

  /** A finished run followed by a blank line is one paragraph in front of the rest. */
  lemma ParagraphsAfterRun(c: seq<string>, rest: seq<string>)
    requires c != [] && NoBlank(c)
    ensures Paragraphs(c + [""] + rest) == [c] + Paragraphs(rest)
    ensures Paragraphs(c) == [c]
  {
    RunLengthOfRun(c, rest);
    var lines := c + [""] + rest;
    assert lines[..|c|] == c;
    assert lines[|c|..] == [""] + rest;
    assert c[..|c|] == c && c[|c|..] == [];
  }

  /** A blank line closes a non-empty pending run: it becomes the next paragraph. */
  lemma FormatCloseRun(lines: seq<string>, i: nat, sections: seq<seq<string>>, current: seq<string>)
    requires i < |lines| && lines[i] == "" && current != [] && NoBlank(current)
    requires Paragraphs(lines) == sections + Paragraphs(current + lines[i..])
    ensures Paragraphs(lines) == (sections + [current]) + Paragraphs([] + lines[i + 1..])
  {
    var rest := lines[i + 1..];
    assert current + lines[i..] == current + [""] + rest;
    ParagraphsAfterRun(current, rest);
    assert [] + rest == rest;
  }

  /** A blank line with no pending run adds no paragraph. */
  lemma FormatSkipBlank(lines: seq<string>, i: nat, sections: seq<seq<string>>)
    requires i < |lines| && lines[i] == ""
    requires Paragraphs(lines) == sections + Paragraphs([] + lines[i..])
    ensures Paragraphs(lines) == sections + Paragraphs([] + lines[i + 1..])
  {
    var rest := lines[i + 1..];
    assert [] + lines[i..] == [""] + rest;
    assert ([""] + rest)[1..] == rest;
    assert [] + rest == rest;
  }

  /** A non-empty line moves from the remaining lines onto the pending run. */
  lemma FormatExtendRun(lines: seq<string>, i: nat, current: seq<string>)
    requires i < |lines| && lines[i] != "" && NoBlank(current)
    ensures NoBlank(current + [lines[i]])
    ensures current + lines[i..] == (current + [lines[i]]) + lines[i + 1..]
  {
    assert lines[i..] == [lines[i]] + lines[i + 1..];
  }

  /** After the last line the pending run is the last paragraph, if there is one. */
  lemma FormatEnd(lines: seq<string>, sections: seq<seq<string>>, current: seq<string>)
    requires NoBlank(current)
    requires Paragraphs(lines) == sections + Paragraphs(current + lines[|lines|..])
    ensures current != [] ==> Paragraphs(lines) == sections + [current]
    ensures current == [] ==> Paragraphs(lines) == sections
  {
    assert current + lines[|lines|..] == current;
    if current != [] {
      ParagraphsAfterRun(current, []);
    }
  }

  /**
   * `formatContent`: split the text at newlines and walk the lines, closing the
   * current group at a blank line if it is non-empty and pushing any other line
   * onto it; a non-empty last group is kept.
   */
  method FormatContent(content: string) returns (sections: seq<seq<string>>)
    ensures sections == Paragraphs(Split(content, '\n'))
  {
    var lines := Split(content, '\n');
    sections := [];
    var currentSection: seq<string> := [];
    assert currentSection + lines[0..] == lines;
    for i := 0 to |lines|
      invariant NoBlank(currentSection)
      invariant Paragraphs(lines) == sections + Paragraphs(currentSection + lines[i..])
    {
      var line := lines[i];
      if line == "" {
        if |currentSection| > 0 {
          FormatCloseRun(lines, i, sections, currentSection);
          sections := sections + [currentSection];
          currentSection := [];
        } else {
          FormatSkipBlank(lines, i, sections);
        }
      } else {
        FormatExtendRun(lines, i, currentSection);
        currentSection := currentSection + [line];
      }
    }
    FormatEnd(lines, sections, currentSection);
    if |currentSection| > 0 {
      sections := sections + [currentSection];
    }
  }

  /** The non-empty lines, in order. */
  function NonBlank(lines: seq<string>): (r: seq<string>)
    ensures NoBlank(r)
  {
    if lines == [] then []
    else if lines[0] == "" then NonBlank(lines[1..])
    else [lines[0]] + NonBlank(lines[1..])
  }

  function Concat(groups: seq<seq<string>>): (r: seq<string>) {
    if groups == [] then [] else groups[0] + Concat(groups[1..])
  }

  lemma {:induction false} NonBlankOfRun(lines: seq<string>, k: nat)
    requires k <= |lines| && NoBlank(lines[..k])
    ensures NonBlank(lines) == lines[..k] + NonBlank(lines[k..])
    decreases k
  {
    if k > 0 {
      NonBlankOfRun(lines[1..], k - 1);
      assert lines[1..][..k - 1] == lines[1..k];
      assert lines[1..][k - 1..] == lines[k..];
      assert lines[..k] == [lines[0]] + lines[1..k];
    }
  }

  /** Concatenating the groups gives exactly the non-empty lines, in order. */
  lemma {:induction false} ParagraphsConcat(lines: seq<string>)
    ensures Concat(Paragraphs(lines)) == NonBlank(lines)
    decreases |lines|
  {
    if lines == [] {
    } else if lines[0] == "" {
      ParagraphsConcat(lines[1..]);
    } else {
      var k := RunLength(lines);
      ParagraphsConcat(lines[k..]);
      NonBlankOfRun(lines, k);
      assert Paragraphs(lines) == [lines[..k]] + Paragraphs(lines[k..]);
      assert Concat(Paragraphs(lines)) == lines[..k] + Concat(Paragraphs(lines[k..]));
    }
  }

  /** The number of places where a non-empty line starts a run: after a blank line or at the start. */
  function RunStarts(lines: seq<string>): (r: nat) {
    Starts([""] + lines)
  }

  /** The number of positions `i >= 1` with `s[i - 1]` blank and `s[i]` not. */
  function Starts(s: seq<string>): (r: nat) {
    if |s| < 2 then 0 else (if s[0] == "" && s[1] != "" then 1 else 0) + Starts(s[1..])
  }

  lemma {:induction false} StartsInsideRun(s: seq<string>, k: nat)
    requires 1 <= k <= |s| && NoBlank(s[..k])
    ensures Starts(s) == Starts(s[k - 1..])
    decreases k
  {
    if k > 1 {
      assert s[1..][..k - 1] == s[1..k];
      StartsInsideRun(s[1..], k - 1);
      assert s[1..][k - 2..] == s[k - 1..];
    }
  }

  /** There is one group per maximal run of non-empty lines. */
  lemma {:induction false} ParagraphsCount(lines: seq<string>)
    ensures |Paragraphs(lines)| == RunStarts(lines)
    decreases |lines|
  {
    if lines == [] {
    } else if lines[0] == "" {
      ParagraphsCount(lines[1..]);
      assert ([""] + lines)[1..] == lines == [""] + lines[1..];
    } else {
      var k := RunLength(lines);
      ParagraphsCount(lines[k..]);
      assert ([""] + lines)[1..] == lines;
      assert Starts([""] + lines) == 1 + Starts(lines);
      StartsInsideRun(lines, k);
      if k < |lines| {
        assert lines[k - 1..][1..] == lines[k..] == [""] + lines[k + 1..];
        assert Starts(lines[k - 1..]) == Starts(lines[k..]);
        assert Paragraphs(lines[k..]) == Paragraphs(lines[k + 1..]);
        ParagraphsCount(lines[k + 1..]);
        assert Starts(lines[k..]) == Starts([""] + lines[k + 1..]);
      } else {
        assert lines[k..] == [];
      }
    }
  }

  /** A trailing blank line (as after a final "\n\n") adds no group. */
  lemma {:induction false} ParagraphsTrailingBlank(lines: seq<string>)
    ensures Paragraphs(lines + [""]) == Paragraphs(lines)
    decreases |lines|
  {
    if lines == [] {
      assert Paragraphs([""]) == Paragraphs([]);
    } else if lines[0] == "" {
      assert (lines + [""])[1..] == lines[1..] + [""];
      ParagraphsTrailingBlank(lines[1..]);
    } else {
      var k := RunLength(lines);
      if k < |lines| {
        var rest := lines[k + 1..];
        assert lines == lines[..k] + [""] + rest;
        assert lines + [""] == lines[..k] + [""] + (rest + [""]);
        ParagraphsAfterRun(lines[..k], rest);
        ParagraphsAfterRun(lines[..k], rest + [""]);
        ParagraphsTrailingBlank(rest);
      } else {
        assert lines[..k] == lines;
        ParagraphsAfterRun(lines, []);
        assert lines + [""] == lines + [""] + [];
      }
    }
  }

  /** Empty content yields no group, and a run of blank lines counts as one separator. */
  lemma ParagraphsOfBlankText(a: seq<string>, b: seq<string>)
    ensures Paragraphs(Split("", '\n')) == []
    ensures a != [] && NoBlank(a) ==> Paragraphs(a + ["", ""] + b) == Paragraphs(a + [""] + b)
  {
    assert Split("", '\n') == [""];
    assert Paragraphs([""]) == Paragraphs([]);
    if a != [] && NoBlank(a) {
      ParagraphsAfterRun(a, [""] + b);
      assert a + ["", ""] + b == a + [""] + ([""] + b);
      ParagraphsAfterRun(a, b);
      assert ([""] + b)[1..] == b;
    }
  }

  // ---------------------------------------------------------------------------
  // Panel config of a group

  /** One entry of a panel config's `sections` list (only its placement is modelled). */
  datatype SectionConfig = SectionConfig(x: real, y: real, maxWidth: real)

  datatype PanelConfig = PanelConfig(fontSize: Option<real>, sections: Option<seq<SectionConfig>>)

  /** The destructuring default: one config at (-0.35, 0.25), 0.8 wide. */
  const DefaultSectionConfigs: seq<SectionConfig> := [SectionConfig(-0.35, 0.25, 0.8)]

  /** `const { sections: sectionConfigs = [...] } = panelConfig || {}`. */
  function SectionConfigs(panelConfig: Option<PanelConfig>): (configs: seq<SectionConfig>)
    ensures panelConfig.None? || panelConfig.value.sections.None? ==> configs == DefaultSectionConfigs && |configs| == 1
    ensures panelConfig.Some? && panelConfig.value.sections.Some? ==> configs == panelConfig.value.sections.value
  {
    if panelConfig.Some? && panelConfig.value.sections.Some? then panelConfig.value.sections.value
    else DefaultSectionConfigs
  }

  /** `sectionConfigs[Math.min(sectionIndex, sectionConfigs.length - 1)]`, `undefined` when out of range. */
  function ConfigFor(configs: seq<SectionConfig>, sectionIndex: nat): (c: Option<SectionConfig>)
    ensures c.Some? <==> configs != []
    ensures sectionIndex < |configs| ==> c == Some(configs[sectionIndex])
    ensures configs != [] && sectionIndex >= |configs| ==> c == Some(configs[|configs| - 1])
  {
    var i := if sectionIndex <= |configs| - 1 then sectionIndex else |configs| - 1;
    if 0 <= i < |configs| then Some(configs[i]) else None
  }

  // ---------------------------------------------------------------------------
  // Textures

  /** The six texture names the body passes on to the loader, in source order. */
  const TextureNames: seq<string> := ["map", "normalMap", "roughnessMap", "aoMap", "displacementMap", "ringTexture"]

  /** A texture value is used when present and truthy (a non-empty URL). */
  predicate HasTexture(textures: map<string, string>, name: string) {
    name in textures && textures[name] != ""
  }

  /** Every key taken so far carries the value given for it. */
  predicate AgreesWith(keys: map<string, string>, textures: map<string, string>) {
    forall name :: name in keys ==> name in textures && keys[name] == textures[name]
  }

  /** `if (textures.name) textureKeys.name = textures.name;` */
  method CopyIfPresent(keys: map<string, string>, textures: map<string, string>, name: string)
    returns (r: map<string, string>)
    requires AgreesWith(keys, textures)
    ensures AgreesWith(r, textures)
    ensures forall n :: n in r <==> n in keys || (n == name && HasTexture(textures, name))
  {
    r := keys;
    if HasTexture(textures, name) {
      r := keys[name := textures[name]];
    }
  }

  /** `textureKeys`: one conditional assignment per texture name. */
  method TextureKeys(textures: map<string, string>) returns (keys: map<string, string>)
    ensures forall name :: name in keys <==> name in TextureNames && HasTexture(textures, name)
    ensures AgreesWith(keys, textures)
  {
    keys := map[];
    keys := CopyIfPresent(keys, textures, "map");
    keys := CopyIfPresent(keys, textures, "normalMap");
    keys := CopyIfPresent(keys, textures, "roughnessMap");
    keys := CopyIfPresent(keys, textures, "aoMap");
    keys := CopyIfPresent(keys, textures, "displacementMap");
    keys := CopyIfPresent(keys, textures, "ringTexture");
  }

  // ---------------------------------------------------------------------------
  // Description text

  /**
   * `s.replace(c, replacement)` with a one-character string pattern: only the
   * first occurrence is replaced. The replacement goes in literally, which is
   * what JavaScript does for a replacement without `$` patterns, such as the
   * `'\n\n'` of the description.
   */
  function ReplaceFirst(s: string, c: char, replacement: string): (r: string) {
    if s == [] then []
    else if s[0] == c then replacement + s[1..]
    else [s[0]] + ReplaceFirst(s[1..], c, replacement)
  }

  function IndexOf(s: string, c: char): (i: nat)
    requires c in s
    ensures i < |s| && s[i] == c && c !in s[..i]
  {
    if s[0] == c then 0 else 1 + IndexOf(s[1..], c)
  }

  /** Without an occurrence the text is unchanged. */
  lemma {:induction false} ReplaceFirstAbsent(s: string, c: char, replacement: string)
    requires c !in s
    ensures ReplaceFirst(s, c, replacement) == s
    decreases |s|
  {
    if s != [] {
      assert c !in s[1..];
      ReplaceFirstAbsent(s[1..], c, replacement);
    }
  }

  /**
   * Replacing splices the replacement in at the first occurrence and keeps
   * everything before and after it.
   */
  lemma {:induction false} ReplaceFirstSplice(s: string, c: char, replacement: string)
    requires c in s
    ensures ReplaceFirst(s, c, replacement) == s[..IndexOf(s, c)] + replacement + s[IndexOf(s, c) + 1..]
    decreases |s|
  {
    if s[0] != c {
      var tail := s[1..];
      assert c in tail;
      ReplaceFirstSplice(tail, c, replacement);
      var j := IndexOf(tail, c);
      assert IndexOf(s, c) == j + 1;
      assert s[..j + 1] == [s[0]] + tail[..j];
      assert s[j + 2..] == tail[j + 1..];
    }
  }

  function Count(s: string, c: char): (r: nat) {
    if s == [] then 0 else (if s[0] == c then 1 else 0) + Count(s[1..], c)
  }

  lemma {:induction false} CountAppend(a: string, b: string, c: char)
    ensures Count(a + b, c) == Count(a, c) + Count(b, c)
    decreases |a|
  {
    if a == [] {
      assert a + b == b;
    } else {
      assert (a + b)[1..] == a[1..] + b;
      CountAppend(a[1..], b, c);
    }
  }

  lemma CountSplice(before: string, mid: string, after: string, c: char)
    ensures Count(before + mid + after, c) == Count(before, c) + Count(mid, c) + Count(after, c)
  {
    CountAppend(before + mid, after, c);
    CountAppend(before, mid, c);
  }

  /** Doubling one occurrence of `c` adds exactly one occurrence. */
  lemma CountDoubled(before: string, c: char, after: string)
    ensures Count(before + [c, c] + after, c) == Count(before + [c] + after, c) + 1
  {
    CountSplice(before, [c], after, c);
    CountSplice(before, [c, c], after, c);
    assert [c, c][1..] == [c];
  }

  /** A text is the part before position `i`, the character there and the part after. */
  lemma SplitAround(s: string, i: nat)
    requires i < |s|
    ensures s == s[..i] + [s[i]] + s[i + 1..]
  {
  }

  /**
   * The description's `replace('\n', '\n\n')` doubles the first newline only:
   * a text with a newline gains exactly one, a text without one is unchanged.
   * Where the extra newline goes is `ReplaceFirstSplice`.
   */
  lemma DoubleFirstNewline(s: string)
    ensures '\n' !in s ==> ReplaceFirst(s, '\n', "\n\n") == s
    ensures '\n' in s ==> Count(ReplaceFirst(s, '\n', "\n\n"), '\n') == Count(s, '\n') + 1
  {
    if '\n' in s {
      var i := IndexOf(s, '\n');
      ReplaceFirstSplice(s, '\n', "\n\n");
      SplitAround(s, i);
      CountDoubled(s[..i], '\n', s[i + 1..]);
    } else {
      ReplaceFirstAbsent(s, '\n', "\n\n");
    }
  }

  // ---------------------------------------------------------------------------
  // Curved title

  /** `angleStep = (textSize * 1.2) / radius`. */
  function AngleStep(textSize: real, radius: real): (r: real)
    requires radius != 0.0
  {
    (textSize * 1.2) / radius
  }

  /** `startAngle + i * angleStep` with `startAngle = -(n - 1) * angleStep / 2`. */
  function LetterAngle(letterCount: nat, angleStep: real, i: nat): (r: real) {
    -((letterCount as real) - 1.0) * angleStep / 2.0 + (i as real) * angleStep
  }

  /** The letters are spread symmetrically about angle 0. */
  lemma LetterAnglesSymmetric(letterCount: nat, angleStep: real, i: nat)
    requires i < letterCount
    ensures LetterAngle(letterCount, angleStep, i) == -LetterAngle(letterCount, angleStep, letterCount - 1 - i)
  {
    var n, k := letterCount as real, i as real;
    assert ((letterCount - 1 - i) as real) == n - 1.0 - k;
    assert (n - 1.0 - k) * angleStep == (n - 1.0) * angleStep - k * angleStep;
  }

  /** The body calls the curved text with its own size as radius and `0.15 * size` as text size: the spacing is the same for every body. */
  lemma AngleStepOfBody(size: real)
    requires size != 0.0
    ensures AngleStep(size * 0.15, size) == 0.18
  {
    assert size * 0.15 * 1.2 == 0.18 * size;
  }
}
