/** The keyword moderation service: `moderateContent` rejects a text that
    contains one of four keywords anywhere, whatever the letter case, and
    `moderatePost` records the verdict on a post and saves it. */
module ModerationService {
  import opened Common
  import opened Text
  import opened PostModel

  const InappropriateKeywords: seq<string> := ["violence", "hate", "spam", "inappropriate"]

  const RejectionReason: string := "Content contains inappropriate keywords"

  /** `{ approved, reason }`; a `null` reason is `None`. */
  datatype ModerationResult = ModerationResult(approved: bool, reason: Option<string>)

  /** `keywords.some(k => s.includes(k))`. */
  function AnyKeywordIn(s: string, keywords: seq<string>): (b: bool)
    ensures b <==> exists k, i :: 0 <= k < |keywords| && OccursAt(keywords[k], s, i)
  {
    if keywords == [] then false
    else
      ContainsIff(s, keywords[0]);
      var rest := AnyKeywordIn(s, keywords[1..]);
      assert rest <==> exists k, i :: 1 <= k < |keywords| && OccursAt(keywords[k], s, i) by {
        if rest {
          var k, i :| 0 <= k < |keywords[1..]| && OccursAt(keywords[1..][k], s, i);
          assert OccursAt(keywords[k + 1], s, i);
        }
        if k, i :| 1 <= k < |keywords| && OccursAt(keywords[k], s, i) {
          assert OccursAt(keywords[1..][k - 1], s, i);
        }
      }
      Contains(s, keywords[0]) || rest
  }

  /** `moderateContent(content)`: rejected exactly when the lower-cased
      content has one of the keywords as a substring. */
  function ModerateContent(content: string): (r: ModerationResult)
    ensures !r.approved ==>
      exists k, i :: 0 <= k < |InappropriateKeywords| && OccursAt(InappropriateKeywords[k], ToLower(content), i)
    ensures (exists k, i :: 0 <= k < |InappropriateKeywords| && OccursAt(InappropriateKeywords[k], ToLower(content), i))
      ==> !r.approved
    ensures !r.approved ==> r.reason == Some(RejectionReason)
    ensures r.approved ==> r.reason.None?
  {
    var lower := ToLower(content);
    if AnyKeywordIn(lower, InappropriateKeywords) then
      assert exists k, i :: 0 <= k < |InappropriateKeywords| && OccursAt(InappropriateKeywords[k], lower, i);
      ModerationResult(false, Some(RejectionReason))
    else
      ModerationResult(true, None)
  }

  /** The check is on substrings, not words, and ignores case: "Whatever"
      is rejected because it contains "hate". */
  lemma WhateverIsRejected()
    ensures ModerateContent("Whatever") == ModerationResult(false, Some(RejectionReason))
  {
    var lower := ToLower("Whatever");
    assert lower[1] == 'h' && lower[2] == 'a' && lower[3] == 't' && lower[4] == 'e';
    assert lower[1..5] == "hate";
    assert OccursAt(InappropriateKeywords[1], lower, 1);
  }

  /** A text without any keyword, such as "good day", is approved. */
  lemma GoodDayIsApproved()
    ensures ModerateContent("good day") == ModerationResult(true, None)
  {
    var lower := ToLower("good day");
    assert forall j :: 0 <= j < |lower| ==> lower[j] != 'v' && lower[j] != 'h' && lower[j] != 's' && lower[j] != 'i';
    forall k, i | 0 <= k < |InappropriateKeywords|
      ensures !OccursAt(InappropriateKeywords[k], lower, i)
    {
      var w := InappropriateKeywords[k];
      if 0 <= i && i + |w| <= |lower| {
        assert lower[i..i + |w|][0] == lower[i];
      }
    }
  }

  /** A post together with the verdict `moderatePost` returns for it. */
  datatype Moderated = Moderated(post: Post, result: ModerationResult)

  /** `moderatePost(post)`: the verdict on the content decides the status and
      the reason, a rejection unpublishes the post, and then the post is
      saved, which fails (and the failure propagates) when the post does not
      validate. */
  function ModeratePost(p: Post): (r: Result<Moderated>)
    ensures r.Ok? <==> ValidPost(p)
    ensures r.Err? ==> r.error == ServerError
    ensures r.Ok? ==> r.value.result == ModerateContent(p.content)
    ensures r.Ok? ==> r.value.post.moderationStatus == (if r.value.result.approved then Approved else Rejected)
    ensures r.Ok? ==> r.value.post.moderationReason == r.value.result.reason
    ensures r.Ok? ==> (r.value.post.isPublished <==> r.value.result.approved && p.isPublished)
    ensures r.Ok? ==> r.value.post == p.(moderationStatus := r.value.post.moderationStatus,
                                          moderationReason := r.value.post.moderationReason,
                                          isPublished := r.value.post.isPublished)
  {
    var verdict := ModerateContent(p.content);
    var q := p.(moderationStatus := if verdict.approved then Approved else Rejected,
                moderationReason := verdict.reason,
                isPublished := if verdict.approved then p.isPublished else false);
    if ValidPost(q) then Ok(Moderated(q, verdict)) else Err(ServerError)
  }

  /** Moderating a moderated post again changes nothing and gives the same
      verdict. */
  lemma ModeratePostIdempotent(p: Post)
    requires ModeratePost(p).Ok?
    ensures ModeratePost(ModeratePost(p).value.post) == ModeratePost(p)
  {
  }
}
