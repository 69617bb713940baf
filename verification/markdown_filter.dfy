/**
 * The recoll input filter for Markdown notes: it separates the YAML front
 * matter from the body, reads the `tags` list out of the front matter, and
 * wraps the note in the HTML envelope recoll indexes, with one
 * `<meta name="tags">` element per tag.
 *
 * Parsing YAML and escaping HTML are the filter's collaborators and enter the
 * model as parameters.
 */
module MarkdownFilter {
  import opened Wrappers
  import opened Text

  /** The front-matter delimiter. */
  const Fence := "---"

  /** What `yaml.safe_load` returns, assuming the front matter is either empty
      (PyYAML then returns `None`) or a mapping whose values are lists of
      strings. */
  datatype YamlDoc = NullDocument | Mapping(entries: map<string, seq<string>>)

  /** A YAML load: a document, or the exception PyYAML raises for invalid YAML. */
  datatype YamlLoad = Loaded(doc: YamlDoc) | YamlError

  /** Why the filter fails: the front matter is not valid YAML, or it is empty
      and `'tags' in None` raises a TypeError. */
  datatype FilterError = InvalidYaml | TagsOfNull

  /** Front matter and body of a note. */
  datatype Parsed = Parsed(frontMatter: YamlDoc, body: string)

  /** The generated document and the mime type the filter reports. */
  datatype Html = Html(output: string, mimetype: string)

  /** Where the closing delimiter is searched for: from index 3 on. */
  function ClosingFence(text: string): (end: int)
    ensures end == -1 || (end >= 3 && OccursAt(text, Fence, end))
    ensures end == -1 <==> forall i :: 3 <= i ==> !OccursAt(text, Fence, i)
  {
    Find(text, Fence, 3)
  }

  /** True when the note opens with `---` and a second `---` follows it. */
  predicate HasFrontMatter(text: string) {
    StartsWith(text, Fence) && ClosingFence(text) != -1
  }

  /** `parse_md_file`: without front matter the result is an empty mapping and
      the whole text; with it, the YAML between the delimiters (stripped) is
      loaded and the body is the stripped text after the closing delimiter. */
  function ParseMdFile(text: string, load: string -> YamlLoad): (r: Result<Parsed, FilterError>)
    ensures !HasFrontMatter(text) ==> r == Success(Parsed(Mapping(map[]), text))
    ensures HasFrontMatter(text) ==>
      var end := ClosingFence(text);
      && 3 <= end && end + 3 <= |text|
      && (load(PyStrip(text[3..end])).YamlError? ==> r == Failure(InvalidYaml))
      && (load(PyStrip(text[3..end])).Loaded? ==>
            r == Success(Parsed(load(PyStrip(text[3..end])).doc, PyStrip(text[end + 3..]))))
  {
    if StartsWith(text, Fence) then
      var end := ClosingFence(text);
      if end != -1 then
        match load(PyStrip(text[3..end]))
        case YamlError => Failure(InvalidYaml)
        case Loaded(doc) => Success(Parsed(doc, PyStrip(text[end + 3..])))
      else Success(Parsed(Mapping(map[]), text))
    else Success(Parsed(Mapping(map[]), text))
  }

  /** Searching from index 3 in a text that starts with three characters is
      searching the rest of the text from its start: the opening delimiter is
      never mistaken for the closing one. */
  lemma {:induction false} FindAfterOpening(head: string, rest: string, from: nat)
    requires |head| == 3
    ensures Find(head + rest, Fence, 3 + from)
         == (if Find(rest, Fence, from) == -1 then -1 else 3 + Find(rest, Fence, from))
    decreases |rest| - from
  {
    var s := head + rest;
    if 3 + from + 3 <= |s| {
      assert s[3 + from..3 + from + 3] == rest[from..from + 3];
      if rest[from..from + 3] != Fence {
        FindAfterOpening(head, rest, from + 1);
      }
    }
  }

  /** The closing delimiter of `---` followed by `rest` is the first `---` in
      `rest`. */
  lemma ClosingFenceInRest(rest: string)
    ensures ClosingFence(Fence + rest)
         == (if Find(rest, Fence, 0) == -1 then -1 else 3 + Find(rest, Fence, 0))
  {
    FindAfterOpening(Fence, rest, 0);
  }

  /** `tag.lstrip('#')`: the tag without its leading `#` characters. */
  predicate HashStripped(raw: string, tag: string) {
    && |tag| <= |raw| && raw[|raw| - |tag|..] == tag
    && (forall j :: 0 <= j < |raw| - |tag| ==> raw[j] == '#')
    && (tag == [] || tag[0] != '#')
  }

  /** The tags listed under `tags`, if any, each with its leading `#`
      characters removed; same number and order. */
  function StrippedTags(m: map<string, seq<string>>): (tags: seq<string>)
    ensures "tags" !in m ==> tags == []
    ensures "tags" in m ==> |tags| == |m["tags"]|
    ensures "tags" in m ==> forall i :: 0 <= i < |tags| ==> HashStripped(m["tags"][i], tags[i])
  {
    if "tags" in m then
      var raw := m["tags"];
      seq(|raw|, i requires 0 <= i < |raw| => StripLeft(raw[i], {'#'}))
    else []
  }

  /** `extract_tags` as written: an empty front matter (`None`) raises. */
  function ExtractTags(doc: YamlDoc): (r: Result<seq<string>, FilterError>)
    ensures doc.NullDocument? <==> r == Failure(TagsOfNull)
    ensures doc.Mapping? ==> r == Success(StrippedTags(doc.entries))
  {
    match doc
    case NullDocument => Failure(TagsOfNull)
    case Mapping(m) => Success(StrippedTags(m))
  }

  /** Python truthiness of the loaded front matter (`if frontmatter:`). */
  predicate Truthy(doc: YamlDoc) {
    doc.Mapping? && |doc.entries| > 0
  }

  const HtmlPrefix := "<html><head>\n<meta http-equiv=\"Content-Type\" content=\"text/html; charset=UTF-8\">\n"
  const HtmlMidfix := "</head><body><pre>\n"
  const HtmlSuffix := "\n</pre></body></html>"

  /** One `<meta name="tags">` line. */
  function MetaLine(tag: string, escape: string -> string): string {
    "<meta name=\"tags\" content=\"" + escape(tag) + "\">\n"
  }

  /** The meta lines of all tags, in order. */
  function MetaLines(tags: seq<string>, escape: string -> string): (r: string)
    ensures tags == [] ==> r == ""
    ensures tags != [] ==> StartsWith(r, MetaLine(tags[0], escape))
    ensures |tags| == 1 ==> r == MetaLine(tags[0], escape)
  {
    if tags == [] then "" else MetaLine(tags[0], escape) + MetaLines(tags[1..], escape)
  }

  /** The meta lines of two runs of tags are those of the first run followed
      by those of the second: one line per tag, in the tags' order. */
  lemma {:induction false} MetaLinesConcat(a: seq<string>, b: seq<string>, escape: string -> string)
    ensures MetaLines(a + b, escape) == MetaLines(a, escape) + MetaLines(b, escape)
    decreases |a|
  {
    if a == [] {
      assert a + b == b;
    } else {
      assert (a + b)[0] == a[0] && (a + b)[1..] == a[1..] + b;
      MetaLinesConcat(a[1..], b, escape);
    }
  }

  /** The text that is indexed as the body: after the closing delimiter and
      one more character when the front matter is non-empty, the whole note
      otherwise (front matter included). */
  function EmittedBody(text: string, doc: YamlDoc): (body: string)
    ensures !Truthy(doc) ==> body == text
    ensures Truthy(doc) && ClosingFence(text) + 4 <= |text| ==> text[..ClosingFence(text) + 4] + body == text
    ensures Truthy(doc) && ClosingFence(text) + 4 > |text| ==> body == []
  {
    if Truthy(doc) then SliceFrom(text, ClosingFence(text) + 4) else text
  }

  /** The envelope around the tag lines and the body. */
  function Envelope(tags: seq<string>, body: string, escape: string -> string): string {
    HtmlPrefix + MetaLines(tags, escape) + HtmlMidfix + escape(body) + HtmlSuffix
  }

  /** `html_text` as written: fails on invalid YAML and on an empty front
      matter; otherwise the envelope of the extracted tags and the emitted
      body, reported as `text/html`. */
  function HtmlText(text: string, load: string -> YamlLoad, escape: string -> string): (r: Result<Html, FilterError>)
    ensures ParseMdFile(text, load).Failure? ==> r == Failure(InvalidYaml)
    ensures ParseMdFile(text, load).Success? && ParseMdFile(text, load).value.frontMatter.NullDocument?
            ==> r == Failure(TagsOfNull)
    ensures ParseMdFile(text, load).Success? && ParseMdFile(text, load).value.frontMatter.Mapping? ==>
      var doc := ParseMdFile(text, load).value.frontMatter;
      r == Success(Html(Envelope(StrippedTags(doc.entries), EmittedBody(text, doc), escape), "text/html"))
  {
    var parsed :- ParseMdFile(text, load);
    var tags :- ExtractTags(parsed.frontMatter);
    Success(Html(Envelope(tags, EmittedBody(text, parsed.frontMatter), escape), "text/html"))
  }

  /** A note that does not open with `---` is indexed whole, with no tags. */
  lemma PlainNote(text: string, load: string -> YamlLoad, escape: string -> string)
    requires !StartsWith(text, Fence)
    ensures HtmlText(text, load, escape)
         == Success(Html(HtmlPrefix + HtmlMidfix + escape(text) + HtmlSuffix, "text/html"))
  {
    assert StrippedTags(map[]) == [];
    assert Envelope([], text, escape) == HtmlPrefix + HtmlMidfix + escape(text) + HtmlSuffix;
  }

  /** True when `---` does not occur anywhere in `s`. */
  ghost predicate FenceFree(s: string) {
    forall i :: 0 <= i < |s| ==> !OccursAt(s, Fence, i)
  }

  /** In `"\n" + yaml + "\n---\n" + body` with `yaml` free of `---`, the first
      `---` is the one after `yaml`. */
  lemma FirstFenceAfterYaml(yaml: string, body: string)
    requires FenceFree(yaml)
    ensures Find("\n" + yaml + "\n---\n" + body, Fence, 0) == |yaml| + 2
  {
    var s := "\n" + yaml + "\n---\n" + body;
    var k := |yaml| + 2;
    assert s[k..k + 3] == Fence;
    forall i | 0 <= i < k ensures !OccursAt(s, Fence, i) {
      if i == 0 {
        assert s[0..3][0] == '\n';
      } else if i + 3 <= |yaml| + 1 {
        assert s[i..i + 3] == yaml[i - 1..i + 2];
        assert !OccursAt(yaml, Fence, i - 1);
      } else {
        assert s[i..i + 3][|yaml| + 1 - i] == s[|yaml| + 1] == '\n';
      }
    }
    FindIsFirst(s, Fence, 0, k);
  }

  /** `Find` returns the first occurrence at or after `from`. */
  lemma FindIsFirst(s: string, pat: string, from: nat, k: nat)
    requires from <= k && OccursAt(s, pat, k)
    requires forall i :: from <= i < k ==> !OccursAt(s, pat, i)
    ensures Find(s, pat, from) == k
  {
  }

  /** The closing delimiter of `"---\n" + yaml + "\n---\n" + body`. */
  lemma ClosingFenceOfNote(yaml: string, body: string)
    requires FenceFree(yaml)
    ensures ClosingFence("---\n" + yaml + "\n---\n" + body) == |yaml| + 5
  {
    var rest := "\n" + yaml + "\n---\n" + body;
    assert "---\n" + yaml + "\n---\n" + body == Fence + rest;
    FirstFenceAfterYaml(yaml, body);
    ClosingFenceInRest(rest);
  }

  /** A note with a non-empty front matter block on its own lines,
      `"---\n" + yaml + "\n---\n" + body`, is indexed as the body alone,
      preceded by one meta line per tag of the front matter. */
  lemma NoteWithFrontMatter(yaml: string, body: string, m: map<string, seq<string>>,
                            load: string -> YamlLoad, escape: string -> string)
    requires FenceFree(yaml)
    requires load(PyStrip("\n" + yaml + "\n")) == Loaded(Mapping(m)) && |m| > 0
    ensures HtmlText("---\n" + yaml + "\n---\n" + body, load, escape)
         == Success(Html(Envelope(StrippedTags(m), body, escape), "text/html"))
  {
    var text := "---\n" + yaml + "\n---\n" + body;
    ClosingFenceOfNote(yaml, body);
    var end := |yaml| + 5;
    assert text[..3] == Fence;
    assert text[3..end] == "\n" + yaml + "\n";
    var p := ParseMdFile(text, load);
    assert p.Success? && p.value.frontMatter == Mapping(m);
    assert text[end + 4..] == body;
    assert EmittedBody(text, Mapping(m)) == body;
  }

  // ---------------------------------------------------------------------
  // The filter with an empty front matter read as "no tags"
  // ---------------------------------------------------------------------

  /** A note whose front matter block is empty makes the filter fail, since
      PyYAML loads the empty text as `None`. */
  lemma EmptyFrontMatterFails(body: string, load: string -> YamlLoad, escape: string -> string)
    requires load("") == Loaded(NullDocument)
    ensures HtmlText("---\n---\n" + body, load, escape) == Failure(TagsOfNull)
  {
    var text := "---\n---\n" + body;
    var rest := "\n---\n" + body;
    assert text == Fence + rest;
    assert rest[1..4] == Fence;
    assert rest[0..3][0] == '\n';
    FindIsFirst(rest, Fence, 0, 1);
    ClosingFenceInRest(rest);
    assert ClosingFence(text) == 4;
    assert text[3..4] == "\n";
    assert PyStrip("\n") == "" by {
      assert "\n"[0] in PyWhitespace;
    }
  }

  /** `extract_tags` reading an empty front matter as one without tags. */
  function ExtractTagsTolerant(doc: YamlDoc): (tags: seq<string>)
    ensures doc.NullDocument? ==> tags == []
    ensures doc.Mapping? ==> tags == StrippedTags(doc.entries)
  {
    match doc
    case NullDocument => []
    case Mapping(m) => StrippedTags(m)
  }

  /** `html_text` with an empty front matter read as one without tags: it
      fails only when the front matter is not valid YAML, and agrees with the
      filter as written wherever that one succeeds. */
  function HtmlTextTolerant(text: string, load: string -> YamlLoad, escape: string -> string): (r: Result<Html, FilterError>)
    ensures r.Failure? <==> ParseMdFile(text, load).Failure?
    ensures r.Failure? ==> r.error == InvalidYaml
    ensures HtmlText(text, load, escape).Success? ==> r == HtmlText(text, load, escape)
    ensures r.Success? ==> r.value.mimetype == "text/html"
  {
    var parsed :- ParseMdFile(text, load);
    var tags := ExtractTagsTolerant(parsed.frontMatter);
    Success(Html(Envelope(tags, EmittedBody(text, parsed.frontMatter), escape), "text/html"))
  }
}
