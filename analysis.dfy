/** `analyze_text`: the prompt sent to the text model and the tolerant
    reading of the `<topic>` and `<hooks>` tags in its answer. */
module TextAnalysis {
  import opened Wrappers
  import opened Text
  import opened Html

  /** The topic and hooks read from one answer (`""` when a tag is missing). */
  datatype Analysis = Analysis(topic: string, hooks: string)

  const PROMPT_HEADER: string :=
    "Read the captions & description below. Return two XML tags only:\n"
    + "<topic> \U{2013}\U{00A0}main subject in \U{2264}5 words\n"
    + "<hooks> \U{2013}\U{00A0}concise list of virality hooks (\U{2264}40\U{00A0}chars each, ';'-separated)\n\n"
    + "TEXT:\n"

  /** The prompt: the fixed instructions followed by the text itself. */
  function Prompt(text: string): (prompt: string)
    ensures |prompt| == |PROMPT_HEADER| + |text|
    ensures prompt[..|PROMPT_HEADER|] == PROMPT_HEADER && prompt[|PROMPT_HEADER|..] == text
  {
    PROMPT_HEADER + text
  }

  function Open(name: string): string
  {
    "<" + name + ">"
  }

  function Close(name: string): string
  {
    "</" + name + ">"
  }

  /** A match of `<name>(.*?)</name>` with DOTALL: an opening tag at `k` and
      a closing tag at `j`, after the opening one. */
  predicate TagAt(out: string, name: string, k: nat, j: nat)
  {
    OccursAt(out, Open(name), k) && k + |Open(name)| <= j && OccursAt(out, Close(name), j)
  }

  /** Where `re.search` finds the tag: the first opening tag and the first
      closing tag after it. (A later opening tag cannot help: any closing tag
      after it is also after the first one.) */
  function TagSpan(out: string, name: string): Option<(nat, nat)>
  {
    match Find(out, Open(name), 0)
    case None => None
    case Some(i) =>
      match Find(out, Close(name), i + |Open(name)|)
      case None => None
      case Some(j) => Some((i, j))
  }

  /** The span found is the match `re.search` reports: the leftmost match
      start, then the shortest body; and none is found only when the answer
      holds no match at all. */
  lemma TagSpanLeftmostShortest(out: string, name: string)
    ensures TagSpan(out, name).Some? ==>
      var (i, j) := TagSpan(out, name).value;
      && TagAt(out, name, i, j)
      && forall k, l :: TagAt(out, name, k, l) ==> i < k || (i == k && j <= l)
    ensures TagSpan(out, name).None? ==> forall k, l :: !TagAt(out, name, k, l)
  {
  }

  /** The text a tag encloses, stripped and then unescaped; `""` when the
      answer has no such tag. */
  function ExtractTag(out: string, name: string): string
  {
    match TagSpan(out, name)
    case None => ""
    case Some(span) => Unescape(Strip(TagBody(out, name, span.0, span.1)))
  }

  /** The text between an opening tag at `i` and a closing tag at `j`. */
  function TagBody(out: string, name: string, i: nat, j: nat): string
  {
    if i + |Open(name)| <= j <= |out| then out[i + |Open(name)|..j] else ""
  }

  /** The topic and hooks of one model answer, each read on its own. */
  function AnalyzeText(out: string): Analysis
  {
    Analysis(ExtractTag(out, "topic"), ExtractTag(out, "hooks"))
  }

  lemma TagSpanOf(out: string, name: string, i: nat, j: nat)
    requires Find(out, Open(name), 0) == Some(i) && Find(out, Close(name), i + |Open(name)|) == Some(j)
    ensures TagSpan(out, name) == Some((i, j))
  {
  }

  lemma ExtractTagOfSpan(out: string, name: string, i: nat, j: nat)
    requires TagSpan(out, name) == Some((i, j))
    ensures ExtractTag(out, name) == Unescape(Strip(TagBody(out, name, i, j)))
  {
  }

  /** An answer `pre <name>content</name> post` where no opening tag starts
      before the one after `pre` and no closing tag starts inside `content`:
      the tag's value is `content`, stripped and unescaped, whatever `post`
      holds. */
  lemma ExtractTagWellFormed(pre: string, name: string, content: string, post: string)
    requires AbsentBetween(pre + Open(name) + content + Close(name) + post, Open(name), 0, |pre|)
    requires AbsentBetween(pre + Open(name) + content + Close(name) + post, Close(name),
      |pre| + |Open(name)|, |pre| + |Open(name)| + |content|)
    ensures ExtractTag(pre + Open(name) + content + Close(name) + post, name) == Unescape(Strip(content))
  {
    ExtractTagOfPieces(pre + Open(name) + content + Close(name) + post, pre, name, content, post);
  }

  lemma ExtractTagOfPieces(out: string, pre: string, name: string, content: string, post: string)
    requires out == pre + Open(name) + content + Close(name) + post
    requires AbsentBetween(out, Open(name), 0, |pre|)
    requires AbsentBetween(out, Close(name), |pre| + |Open(name)|, |pre| + |Open(name)| + |content|)
    ensures ExtractTag(out, name) == Unescape(Strip(content))
  {
    var i, j := |pre|, |pre| + |Open(name)| + |content|;
    TagsOfPieces(out, pre, name, content, post);
    TagSpanOfFirst(out, name, i, j);
    TagBodyOfPlain(pre, name, content, post);
    ExtractTagOfSpan(out, name, i, j);
  }

  /** The first tags found are the ones at `i` and `j`. */
  lemma TagSpanOfFirst(out: string, name: string, i: nat, j: nat)
    requires OccursAt(out, Open(name), i) && AbsentBetween(out, Open(name), 0, i)
    requires i + |Open(name)| <= j && OccursAt(out, Close(name), j)
    requires AbsentBetween(out, Close(name), i + |Open(name)|, j)
    ensures TagSpan(out, name) == Some((i, j))
  {
    FindFirstAt(out, Open(name), 0, i);
    FindFirstAt(out, Close(name), i + |Open(name)|, j);
    TagSpanOf(out, name, i, j);
  }

  /** The two tags stand where the pieces put them. */
  lemma TagsOfPieces(out: string, pre: string, name: string, content: string, post: string)
    requires out == pre + Open(name) + content + Close(name) + post
    ensures OccursAt(out, Open(name), |pre|)
    ensures OccursAt(out, Close(name), |pre| + |Open(name)| + |content|)
  {
    var i, j := |pre|, |pre| + |Open(name)| + |content|;
    assert out[i..i + |Open(name)|] == Open(name);
    assert out[j..j + |Close(name)|] == Close(name);
  }

  /** With no `<` in `pre` or `content`, the tags cannot start earlier. */
  lemma ExtractTagPlain(pre: string, name: string, content: string, post: string)
    requires '<' !in pre && '<' !in content
    ensures ExtractTag(pre + Open(name) + content + Close(name) + post, name) == Unescape(Strip(content))
  {
    var out := pre + Open(name) + content + Close(name) + post;
    FindOpenAfterPlain(pre, name, content, post);
    FindCloseAfterPlain(out, pre, name, content, post);
    ExtractTagWellFormed(pre, name, content, post);
  }

  lemma FindOpenAfterPlain(pre: string, name: string, content: string, post: string)
    requires '<' !in pre
    ensures Find(pre + Open(name) + content + Close(name) + post, Open(name), 0) == Some(|pre|)
  {
    var out := pre + Open(name) + content + Close(name) + post;
    assert out[0..] == pre + Open(name) + (content + Close(name) + post);
    FindAfterPlain(out, 0, pre, Open(name), content + Close(name) + post);
  }

  lemma FindCloseAfterPlain(out: string, pre: string, name: string, content: string, post: string)
    requires out == pre + Open(name) + content + Close(name) + post
    requires '<' !in content
    ensures Find(out, Close(name), |pre| + |Open(name)|) == Some(|pre| + |Open(name)| + |content|)
  {
    assert Close(name)[0] == '<';
    FindAfterPieces(out, pre + Open(name), content, Close(name), post);
  }

  lemma TagBodyOfPlain(pre: string, name: string, content: string, post: string)
    ensures var out := pre + Open(name) + content + Close(name) + post;
      TagBody(out, name, |pre|, |pre| + |Open(name)| + |content|) == content
  {
    var out := pre + Open(name) + content + Close(name) + post;
    assert out[|pre| + |Open(name)|..|pre| + |Open(name)| + |content|] == content;
  }

  /** An answer without an opening tag gives `""` for that tag. */
  lemma ExtractTagMissing(out: string, name: string)
    requires !Contains(out, Open(name))
    ensures ExtractTag(out, name) == ""
  {
  }

  /** An answer made of one tag `<name>content</name>`, with no `<` in
      `content`: that tag's value is `content` stripped and unescaped, and a
      tag whose name starts with another letter (and not with `/`) is
      missing. */
  lemma ExtractTagAlone(name: string, content: string, other: string)
    requires '<' !in name && '<' !in content
    requires name != [] && other != [] && other[0] != name[0] && other[0] != '/'
    ensures ExtractTag(Open(name) + content + Close(name), name) == Unescape(Strip(content))
    ensures ExtractTag(Open(name) + content + Close(name), other) == ""
  {
    var out := Open(name) + content + Close(name);
    assert "" + Open(name) + content + Close(name) + "" == out;
    ExtractTagPlain("", name, content, "");
    forall k | 0 <= k < |out| ensures !OccursAt(out, Open(other), k) {
      OtherTagNotAt(out, out, name, content, "", other, k);
    }
    ExtractTagMissing(out, other);
  }

  /** Inside a prefix `<name>content</name>sep` of `out`, with `<` only in
      its two tags, no opening tag of `other` starts. */
  lemma OtherTagNotAt(out: string, q: string, name: string, content: string, sep: string, other: string, k: nat)
    requires q == Open(name) + content + Close(name) + sep && q <= out
    requires '<' !in name && '<' !in content && '<' !in sep
    requires name != [] && other != [] && other[0] != name[0] && other[0] != '/'
    requires k < |q|
    ensures !OccursAt(out, Open(other), k)
  {
    var o := Open(other);
    var a := |Open(name)|;
    var c := a + |content|;
    var e := c + |Close(name)|;
    if k + |o| <= |out| {
      var w := out[k..k + |o|];
      assert w[0] == out[k] && w[1] == out[k + 1];
      assert o[0] == '<' && o[1] == other[0];
      assert out[k] == q[k];
      if k == 0 {
        assert out[1] == q[1] == name[0];
      } else if k < a {
        assert q[k] == Open(name)[k];
        assert Open(name)[k] == (if k <= |name| then name[k - 1] else '>');
      } else if k < c {
        assert q[k] == content[k - a];
      } else if k == c {
        assert out[k + 1] == q[k + 1] == Close(name)[1] == '/';
      } else if k == c + 1 {
        assert q[k] == Close(name)[1];
      } else if k < e {
        assert q[k] == Close(name)[k - c];
        assert Close(name)[k - c] == (if k - c < 2 + |name| then name[k - c - 2] else '>');
      } else {
        assert q[k] == sep[k - e];
      }
    }
  }

  /** The answer the prompt asks for, `<topic>t</topic>sep<hooks>h</hooks>`,
      with no `<` in `t`, `sep` or `h`: the topic is `t` and the hooks are
      `h`, each stripped and unescaped. */
  lemma AnalyzeTwoTags(t: string, sep: string, h: string)
    requires '<' !in t && '<' !in sep && '<' !in h
    ensures AnalyzeText(Open("topic") + t + Close("topic") + sep + Open("hooks") + h + Close("hooks"))
         == Analysis(Unescape(Strip(t)), Unescape(Strip(h)))
  {
    var out := Open("topic") + t + Close("topic") + sep + Open("hooks") + h + Close("hooks");
    TopicOfTwo(out, t, sep, h);
    HooksOfTwo(out, t, sep, h);
  }

  lemma TopicOfTwo(out: string, t: string, sep: string, h: string)
    requires out == Open("topic") + t + Close("topic") + sep + Open("hooks") + h + Close("hooks")
    requires '<' !in t
    ensures ExtractTag(out, "topic") == Unescape(Strip(t))
  {
    var post := sep + Open("hooks") + h + Close("hooks");
    assert out == "" + Open("topic") + t + Close("topic") + post;
    ExtractTagPlain("", "topic", t, post);
  }

  lemma HooksOfTwo(out: string, t: string, sep: string, h: string)
    requires out == Open("topic") + t + Close("topic") + sep + Open("hooks") + h + Close("hooks")
    requires '<' !in t && '<' !in sep && '<' !in h
    ensures ExtractTag(out, "hooks") == Unescape(Strip(h))
  {
    var q := Open("topic") + t + Close("topic") + sep;
    assert out == q + Open("hooks") + h + Close("hooks") + "";
    forall k | 0 <= k < |q| ensures !OccursAt(out, Open("hooks"), k) {
      OtherTagNotAt(out, q, "topic", t, sep, "hooks", k);
    }
    FindCloseAfterPlain(out, q, "hooks", h, "");
    ExtractTagOfPieces(out, q, "hooks", h, "");
  }

  /** An answer holding only `<topic>cooking</topic>` gives the topic
      `"cooking"` and no hooks. */
  lemma TopicOnlyExample(out: string)
    requires out == "<topic>cooking</topic>"
    ensures AnalyzeText(out) == Analysis("cooking", "")
  {
    ExampleShape(out);
    ExtractTagAlone("topic", "cooking", "hooks");
    CookingPlain();
  }

  lemma ExampleShape(out: string)
    requires out == "<topic>cooking</topic>"
    ensures out == Open("topic") + "cooking" + Close("topic")
  {
  }

  lemma CookingPlain()
    ensures Unescape(Strip("cooking")) == "cooking"
  {
    StripUnchanged("cooking");
    UnescapePlain("cooking");
  }

  lemma StripUnchanged(s: string)
    requires s == [] || (!IsSpace(s[0]) && !IsSpace(s[|s| - 1]))
    ensures Strip(s) == s
  {
  }
}
