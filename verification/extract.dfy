/**
 How `classify_and_extract` cuts the structured object out of the reasoning
 service's free-text reply: from the first `{` to the last `}`, inclusive,
 using Python's `find`, `rfind` and clamping slice, then decoding the piece.
 */
module Extract {
  import opened Wrappers
  import opened PyStrings
  import opened Values

  /** `c` first occurs in `s` at index `i`. */
  predicate FirstAt(s: string, c: char, i: int)
  {
    0 <= i < |s| && s[i] == c && forall k :: 0 <= k < i ==> s[k] != c
  }

  /** `c` last occurs in `s` at index `j`. */
  predicate LastAt(s: string, c: char, j: int)
  {
    0 <= j < |s| && s[j] == c && forall k :: j < k < |s| ==> s[k] != c
  }

  predicate Absent(s: string, c: char)
  {
    forall k :: 0 <= k < |s| ==> s[k] != c
  }

  /** Python's `find` of a one-character pattern agrees with the character
      positions. */
  lemma FindChar(s: string, c: char)
    ensures Find(s, [c]) == -1 <==> Absent(s, c)
    ensures Find(s, [c]) >= 0 ==> FirstAt(s, c, Find(s, [c]))
  {
    var r := Find(s, [c]);
    forall k | 0 <= k < |s| ensures OccursAt(s, [c], k) <==> s[k] == c {
      OccursAtChar(s, c, k);
    }
    if r >= 0 {
      OccursAtChar(s, c, r);
    }
  }

  lemma RFindChar(s: string, c: char)
    ensures RFind(s, [c]) == -1 <==> Absent(s, c)
    ensures RFind(s, [c]) >= 0 ==> LastAt(s, c, RFind(s, [c]))
  {
    var r := RFind(s, [c]);
    forall k | 0 <= k < |s| ensures OccursAt(s, [c], k) <==> s[k] == c {
      OccursAtChar(s, c, k);
    }
    if r >= 0 {
      OccursAtChar(s, c, r);
    }
  }

  /** The candidate object text: `raw[raw.find("{"):raw.rfind("}") + 1]`. */
  function BraceSpan(raw: string): (span: string)
    ensures |span| <= |raw|
  {
    Slice(raw, Find(raw, "{"), RFind(raw, "}") + 1)
  }

  /** With a first `{` at `i` and a last `}` at `j >= i`, the piece is exactly
      `raw[i..j + 1]`. */
  lemma BraceSpanBracketed(raw: string, i: int, j: int)
    requires FirstAt(raw, '{', i) && LastAt(raw, '}', j) && i <= j
    ensures BraceSpan(raw) == raw[i..j + 1]
    ensures |BraceSpan(raw)| >= 2 && BraceSpan(raw)[0] == '{' && BraceSpan(raw)[|BraceSpan(raw)| - 1] == '}'
  {
    FindChar(raw, '{');
    RFindChar(raw, '}');
    assert !Absent(raw, '{') && !Absent(raw, '}');
    FirstAtUnique(raw, '{', i, Find(raw, "{"));
    LastAtUnique(raw, '}', j, RFind(raw, "}"));
    assert BraceSpan(raw) == Slice(raw, i, j + 1);
    assert BraceSpan(raw) == raw[i..j + 1];
  }

  lemma FirstAtUnique(s: string, c: char, i: int, i': int)
    requires FirstAt(s, c, i) && FirstAt(s, c, i')
    ensures i == i'
  {
  }

  lemma LastAtUnique(s: string, c: char, j: int, j': int)
    requires LastAt(s, c, j) && LastAt(s, c, j')
    ensures j == j'
  {
  }

  /** With no `}` anywhere the slice ends at 0, so the piece is empty whether
      or not a `{` exists. */
  lemma BraceSpanNoClose(raw: string)
    requires Absent(raw, '}')
    ensures BraceSpan(raw) == []
  {
    FindChar(raw, '{');
    RFindChar(raw, '}');
  }

  /** A last `}` standing before the first `{` gives the empty piece. */
  lemma BraceSpanReversed(raw: string, i: int, j: int)
    requires FirstAt(raw, '{', i) && LastAt(raw, '}', j) && j < i
    ensures BraceSpan(raw) == []
  {
    FindChar(raw, '{');
    RFindChar(raw, '}');
  }

  /** With no `{`, the start index is -1, which Python reads as the last
      position: the piece is a lone `}` when the reply ends with one, and
      empty otherwise. */
  lemma BraceSpanNoOpen(raw: string, j: int)
    requires Absent(raw, '{') && LastAt(raw, '}', j)
    ensures BraceSpan(raw) == if j == |raw| - 1 then "}" else []
  {
    FindChar(raw, '{');
    RFindChar(raw, '}');
    if j == |raw| - 1 {
      assert raw[|raw| - 1..|raw|] == [raw[j]];
    }
  }

  /** Whatever the reply, the piece is empty, a lone `}`, or a run of the
      reply that opens with `{` and closes with `}`. */
  lemma BraceSpanShape(raw: string)
    ensures var span := BraceSpan(raw);
            || span == []
            || (span == "}" && Contains(raw, "}"))
            || (|span| >= 2 && span[0] == '{' && span[|span| - 1] == '}' && Contains(raw, span))
  {
    FindChar(raw, '{');
    RFindChar(raw, '}');
    var i := Find(raw, "{");
    var j := RFind(raw, "}");
    if i == -1 {
      if j >= 0 {
        BraceSpanNoOpen(raw, j);
        OccursAtChar(raw, '}', j);
      } else {
        BraceSpanNoClose(raw);
      }
    } else if j == -1 {
      BraceSpanNoClose(raw);
    } else if j < i {
      BraceSpanReversed(raw, i, j);
    } else {
      BraceSpanBracketed(raw, i, j);
      assert OccursAt(raw, raw[i..j + 1], i);
    }
  }

  /** `json.loads(span)`: the decoder is a parameter, any partial function
      from text to a decoded object. */
  type Decoder = string -> Option<Obj>

  /** The structured result of one reply, or the decoding error. */
  function Classify(raw: string, decode: Decoder): (r: Result<Obj, Error>)
    ensures r.Failure? ==> r.error == MalformedReply
    ensures r.Success? <==> decode(BraceSpan(raw)).Some?
    ensures r.Success? ==> decode(BraceSpan(raw)) == Some(r.value)
  {
    match decode(BraceSpan(raw))
    case Some(obj) => Success(obj)
    case None => Failure(MalformedReply)
  }

  /** A decoder that rejects the empty text and a lone `}` only ever sees,
      when it succeeds, a brace-delimited run of the reply. */
  lemma ClassifySuccessNeedsBraces(raw: string, decode: Decoder)
    requires decode([]) == None && decode("}") == None
    requires Classify(raw, decode).Success?
    ensures exists i, j :: FirstAt(raw, '{', i) && LastAt(raw, '}', j) && i < j
                           && decode(raw[i..j + 1]) == Some(Classify(raw, decode).value)
  {
    FindChar(raw, '{');
    RFindChar(raw, '}');
    var i := Find(raw, "{");
    var j := RFind(raw, "}");
    if i == -1 {
      if j >= 0 {
        BraceSpanNoOpen(raw, j);
      } else {
        BraceSpanNoClose(raw);
      }
    } else if j == -1 {
      BraceSpanNoClose(raw);
    } else if j < i {
      BraceSpanReversed(raw, i, j);
    } else {
      BraceSpanBracketed(raw, i, j);
      assert i != j;
      assert decode(raw[i..j + 1]) == Some(Classify(raw, decode).value);
    }
  }

  /** A reply with no `}`, or with no `{`, cannot be classified by such a
      decoder. */
  lemma ClassifyWithoutBracesFails(raw: string, decode: Decoder)
    requires decode([]) == None && decode("}") == None
    requires Absent(raw, '{') || Absent(raw, '}')
    ensures Classify(raw, decode) == Failure(MalformedReply)
  {
    if Classify(raw, decode).Success? {
      ClassifySuccessNeedsBraces(raw, decode);
    }
  }
}
