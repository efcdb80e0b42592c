/** The keyword matcher of the consultation chatbot (`chatbot`): the typed
    symptoms are split on `、`, and every disease row whose symptom text
    contains any of the pieces contributes one reply, in table order. */
module Diseases {
  import opened Common
  import opened Text

  const Delimiter: char := '、'

  /** One row of the disease table. */
  datatype DiseaseRecord = DiseaseRecord(
    symptoms: string, // 症狀
    disease: string,  // 疾病
    advice: string)   // 治療建議

  /** The answer shown when no row matches. */
  const Fallback: string := "❗ 很抱歉，目前無法根據輸入判斷疾病，建議您諮詢醫師。"

  const ReplySeparator: string := "\n\n"

  /** The reply text for one matching row. */
  function Reply(r: DiseaseRecord): (reply: string)
    ensures |reply| > 0 && reply[0] == '🦠'
  {
    "🦠 疾病：" + r.disease + "\n💡 建議：" + r.advice
  }

  /** `user_input.split('、')` of the stripped input; empty pieces are kept. */
  function Tokens(userInput: string): seq<string> {
    Split(Strip(userInput), Delimiter)
  }

  /** `any(keyword in text for keyword in tokens)`. */
  predicate AnyIn(tokens: seq<string>, text: string) {
    if |tokens| == 0 then false else Contains(text, tokens[0]) || AnyIn(tokens[1..], text)
  }

  lemma {:induction false} AnyInIff(tokens: seq<string>, text: string)
    ensures AnyIn(tokens, text) <==> exists k :: 0 <= k < |tokens| && Contains(text, tokens[k])
  {
    if |tokens| > 0 {
      AnyInIff(tokens[1..], text);
      if !Contains(text, tokens[0]) && !AnyIn(tokens[1..], text) {
        forall k | 0 <= k < |tokens|
          ensures !Contains(text, tokens[k])
        {
          if k > 0 {
            assert tokens[k] == tokens[1..][k - 1];
          }
        }
      }
    }
  }

  predicate Hit(tokens: seq<string>, r: DiseaseRecord) {
    AnyIn(tokens, r.symptoms)
  }

  /** The rows that match, in table order (filter on the table). */
  function Matching(tokens: seq<string>, records: seq<DiseaseRecord>): seq<DiseaseRecord>
    decreases |records|
  {
    if |records| == 0 then []
    else
      var last := records[|records| - 1];
      Matching(tokens, records[..|records| - 1]) + (if Hit(tokens, last) then [last] else [])
  }

  /** The table positions of the matching rows, in increasing order. */
  function MatchIndices(tokens: seq<string>, records: seq<DiseaseRecord>): seq<nat>
    decreases |records|
  {
    if |records| == 0 then []
    else
      var n := |records| - 1;
      MatchIndices(tokens, records[..n]) + (if Hit(tokens, records[n]) then [n] else [])
  }

  /** The positions `MatchIndices` lists are in range, strictly increasing
      (no row twice) and are exactly the positions of the rows that hit. */
  lemma {:induction false} MatchIndicesSpec(tokens: seq<string>, records: seq<DiseaseRecord>)
    ensures var idx := MatchIndices(tokens, records);
      && (forall k :: 0 <= k < |idx| ==> idx[k] < |records|)
      && (forall k, l :: 0 <= k < l < |idx| ==> idx[k] < idx[l])
      && (forall i :: 0 <= i < |records| ==> (i in idx <==> Hit(tokens, records[i])))
    decreases |records|
  {
    if |records| > 0 {
      var n := |records| - 1;
      var prefix := records[..n];
      MatchIndicesSpec(tokens, prefix);
      var idx := MatchIndices(tokens, records);
      forall i | 0 <= i < |records|
        ensures i in idx <==> Hit(tokens, records[i])
      {
        if i < n {
          assert records[i] == prefix[i];
        }
      }
    }
  }

  /** The matching rows are the rows at the positions `MatchIndices` lists:
      together with `MatchIndicesSpec`, the result keeps table order, holds every
      row that hits and nothing else, and no row twice. */
  lemma {:induction false} MatchingSpec(tokens: seq<string>, records: seq<DiseaseRecord>)
    ensures var m, idx := Matching(tokens, records), MatchIndices(tokens, records);
      && |m| == |idx|
      && (forall k :: 0 <= k < |idx| ==> idx[k] < |records| && m[k] == records[idx[k]])
    decreases |records|
  {
    MatchIndicesSpec(tokens, records);
    if |records| > 0 {
      var n := |records| - 1;
      var prefix := records[..n];
      MatchingSpec(tokens, prefix);
      var m0, idx0 := Matching(tokens, prefix), MatchIndices(tokens, prefix);
      var m, idx := Matching(tokens, records), MatchIndices(tokens, records);
      forall k | 0 <= k < |idx|
        ensures m[k] == records[idx[k]]
      {
        if k < |idx0| {
          assert m[k] == m0[k] && idx[k] == idx0[k];
          assert prefix[idx0[k]] == records[idx0[k]];
        }
      }
    }
  }

  /** When every row hits, every row is kept. */
  lemma {:induction false} MatchingAll(tokens: seq<string>, records: seq<DiseaseRecord>)
    requires forall i :: 0 <= i < |records| ==> Hit(tokens, records[i])
    ensures Matching(tokens, records) == records
    decreases |records|
  {
    if |records| > 0 {
      var n := |records| - 1;
      MatchingAll(tokens, records[..n]);
      assert records[..n] + [records[n]] == records;
    }
  }

  /** When no row hits, nothing is kept. */
  lemma {:induction false} MatchingNone(tokens: seq<string>, records: seq<DiseaseRecord>)
    ensures Matching(tokens, records) == [] <==> forall i :: 0 <= i < |records| ==> !Hit(tokens, records[i])
  {
    MatchingSpec(tokens, records);
    MatchIndicesSpec(tokens, records);
    var idx := MatchIndices(tokens, records);
    if idx != [] {
      assert idx[0] in idx;
    }
  }

  /** An empty token matches every row: it is a substring of any text. */
  lemma EmptyTokenMatchesAll(tokens: seq<string>, records: seq<DiseaseRecord>)
    requires "" in tokens
    ensures Matching(tokens, records) == records
  {
    forall i | 0 <= i < |records|
      ensures Hit(tokens, records[i])
    {
      var k :| 0 <= k < |tokens| && tokens[k] == "";
      ContainsEmpty(records[i].symptoms);
      AnyInIff(tokens, records[i].symptoms);
    }
    MatchingAll(tokens, records);
  }

  /** An empty (or all-whitespace) input matches every row. */
  lemma EmptyInputMatchesAll(userInput: string, records: seq<DiseaseRecord>)
    requires AllSpace(userInput)
    ensures Matching(Tokens(userInput), records) == records
  {
    AllSpaceTrimLeft(userInput);
    assert Tokens(userInput) == [""];
    EmptyTokenMatchesAll(Tokens(userInput), records);
  }

  /** An input ending in `、` matches every row: its last piece is empty. */
  lemma TrailingDelimiterMatchesAll(userInput: string, records: seq<DiseaseRecord>)
    ensures Matching(Tokens(userInput + [Delimiter]), records) == records
  {
    var s := userInput + [Delimiter];
    StripParts(s);
    var t := Strip(s);
    StripEndsWith(s);
    assert t == t[..|t| - 1] + [Delimiter];
    SplitTrailingSeparator(t[..|t| - 1], Delimiter);
    var tokens := Tokens(s);
    assert tokens[|tokens| - 1] == "";
    EmptyTokenMatchesAll(tokens, records);
  }

  /** Stripping a text that ends in the delimiter keeps the delimiter last. */
  lemma StripEndsWith(s: string)
    requires |s| > 0 && s[|s| - 1] == Delimiter
    ensures |Strip(s)| > 0 && Strip(s)[|Strip(s)| - 1] == Delimiter
  {
    StripParts(s);
  }

  /** The reply texts of the given rows. */
  function Replies(records: seq<DiseaseRecord>): (r: seq<string>)
    ensures |r| == |records| && forall k :: 0 <= k < |r| ==> r[k] == Reply(records[k])
  {
    if |records| == 0 then [] else Replies(records[..|records| - 1]) + [Reply(records[|records| - 1])]
  }

  /** The page's answer for a list of replies. */
  function Respond(replies: seq<string>): string {
    if |replies| == 0 then Fallback else Join(replies, ReplySeparator)
  }

  lemma {:induction false} JoinStartsWith(parts: seq<string>, sep: string)
    requires |parts| > 0 && |parts[0]| > 0
    ensures |Join(parts, sep)| > 0 && Join(parts, sep)[0] == parts[0][0]
  {
  }

  /** The POST branch of `chatbot`: one reply per matching row, in table order,
      joined by blank lines, or the fallback answer when nothing matched. */
  method Chatbot(symptom: string, records: seq<DiseaseRecord>) returns (response: string)
    ensures response == Respond(Replies(Matching(Tokens(symptom), records)))
    ensures response == Fallback <==> forall i :: 0 <= i < |records| ==> !Hit(Tokens(symptom), records[i])
  {
    var tokens := Split(Strip(symptom), Delimiter);
    var replies: seq<string> := [];
    for i := 0 to |records|
      invariant replies == Replies(Matching(tokens, records[..i]))
    {
      var row := records[i];
      if AnyIn(tokens, row.symptoms) {
        replies := replies + [Reply(row)];
      }
      assert records[..i + 1][..i] == records[..i];
      assert Matching(tokens, records[..i + 1]) ==
        Matching(tokens, records[..i]) + (if Hit(tokens, row) then [row] else []);
    }
    assert records[..|records|] == records;
    if |replies| == 0 {
      response := Fallback;
    } else {
      response := Join(replies, ReplySeparator);
      JoinStartsWith(replies, ReplySeparator);
      assert response[0] != Fallback[0];
    }
    MatchingNone(tokens, records);
  }
}
