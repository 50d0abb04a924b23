/** Documentation upkeep (click_extra/docs_update.py): the splice that puts freshly
    generated text between a start tag and an end tag of a document, as
    `replace_content` does on the file's text. */
module DocsUpdate {
  import opened Wrappers
  import opened Strings

  datatype ReplaceError =
    | EmptySeparator    // `str.split` refuses an empty separator
    | StartTagMissing   // the split on the start tag yields one part, not two
    | EndTagMissing     // the split on the end tag yields one part, not two

  /** The new text of a document: what precedes the first start tag, the start
      tag, `newContent`, the end tag, and what follows the first end tag after
      the start tag. */
  function ReplaceContent(content: string, startTag: string, endTag: string, newContent: string)
    : (r: Result<string, ReplaceError>)
    ensures startTag == [] ==> r == Failure(EmptySeparator)
    ensures startTag != [] ==> (Absent(content, startTag) <==> r == Failure(StartTagMissing))
    ensures r.Success? ==> startTag != [] && endTag != [] && !Absent(content, startTag)
    ensures r.Success? ==> |r.value| >= |startTag| + |newContent| + |endTag|
  {
    if startTag == [] then Failure(EmptySeparator)
    else
      var outer := SplitOnce(content, startTag);
      if |outer| < 2 then Failure(StartTagMissing)
      else if endTag == [] then Failure(EmptySeparator)
      else
        var inner := SplitOnce(outer[1], endTag);
        if |inner| < 2 then Failure(EndTagMissing)
        else Success(outer[0] + startTag + newContent + endTag + inner[1])
  }

  /** With the first start tag at `i` and the first end tag after it `j`
      characters further, the enclosed text is replaced and everything outside the
      pair, the tags included, is kept. */
  lemma ReplaceContentSplice(content: string, startTag: string, endTag: string, newContent: string, i: nat, j: nat)
    requires startTag != [] && endTag != []
    requires FirstAt(content, startTag, i)
    requires FirstAt(content[i + |startTag|..], endTag, j)
    ensures ReplaceContent(content, startTag, endTag, newContent)
         == Success(content[..i] + startTag + newContent + endTag + content[i + |startTag| + j + |endTag|..])
  {
    var rest := content[i + |startTag|..];
    SplitOnceAt(content, startTag, i);
    SplitOnceAt(rest, endTag, j);
    assert rest[j + |endTag|..] == content[i + |startTag| + j + |endTag|..];
  }

  /** With a start tag present, the splice fails when the end tag is empty or
      does not occur after the first start tag. */
  lemma ReplaceContentNeedsEndTag(content: string, startTag: string, endTag: string, newContent: string, i: nat)
    requires startTag != [] && FirstAt(content, startTag, i)
    ensures endTag == [] ==> ReplaceContent(content, startTag, endTag, newContent) == Failure(EmptySeparator)
    ensures endTag != [] && Absent(content[i + |startTag|..], endTag)
        ==> ReplaceContent(content, startTag, endTag, newContent) == Failure(EndTagMissing)
  {
    SplitOnceAt(content, startTag, i);
  }

  lemma FirstAtExtended(s: string, t: string, pat: string, i: nat)
    requires FirstAt(s, pat, i)
    ensures FirstAt(s + t, pat, i)
  {
    assert (s + t)[..i + |pat|] == s[..i + |pat|];
    FirstAtCommonPrefix(s, s + t, pat, i);
  }

  /** A document already holding `newContent` between its tags splices to itself. */
  lemma SpliceOfSpliced(pre: string, startTag: string, endTag: string, newContent: string, post: string)
    requires startTag != [] && endTag != []
    requires FirstAt(pre + startTag, startTag, |pre|)
    requires FirstAt(newContent + endTag, endTag, |newContent|)
    ensures var doc := pre + startTag + newContent + endTag + post;
      ReplaceContent(doc, startTag, endTag, newContent) == Success(doc)
  {
    var head, tail := pre + startTag, newContent + endTag;
    var doc := head + (tail + post);
    var spliced := pre + startTag + newContent + endTag + post;
    assert doc == spliced;
    assert FirstAt(doc, startTag, |pre|) by {
      FirstAtExtended(head, tail + post, startTag, |pre|);
    }
    assert FirstAt(doc[|pre| + |startTag|..], endTag, |newContent|) by {
      assert doc[|head|..] == tail + post;
      FirstAtExtended(tail, post, endTag, |newContent|);
    }
    assert ReplaceContent(doc, startTag, endTag, newContent)
        == Success(doc[..|pre|] + startTag + newContent + endTag + doc[|head| + |tail|..]) by {
      ReplaceContentSplice(doc, startTag, endTag, newContent, |pre|, |newContent|);
    }
    assert doc[..|pre|] == pre && doc[|head| + |tail|..] == post;
  }

  /** Splicing the same text again changes nothing, as long as the end tag occurs
      in `newContent + endTag` only at its end. */
  lemma ReplaceContentIdempotent(content: string, startTag: string, endTag: string, newContent: string)
    requires ReplaceContent(content, startTag, endTag, newContent).Success?
    requires FirstAt(newContent + endTag, endTag, |newContent|)
    ensures var once := ReplaceContent(content, startTag, endTag, newContent).value;
      ReplaceContent(once, startTag, endTag, newContent) == Success(once)
  {
    var outer := SplitOnce(content, startTag);
    var pre, post := outer[0], SplitOnce(outer[1], endTag)[1];
    assert content[..|pre| + |startTag|] == (pre + startTag)[..|pre| + |startTag|];
    FirstAtCommonPrefix(content, pre + startTag, startTag, |pre|);
    SpliceOfSpliced(pre, startTag, endTag, newContent, post);
  }
}
