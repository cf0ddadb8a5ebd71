/** The notification side of `postComment`: the permalink of a new comment and the
    mails `sendMailToAdminAndTargetUser` sends about it. */
module Notify {
  import opened JsValues
  import opened Comments

  /** The site owner, who is told of every new comment. */
  const OwnerAddress: string := "jkchao@foxmail.com"
  const ArticlePrefix: string := "https://jkchao.cn/article/"
  const AboutPage: string := "https://jkchao.cn/about"

  /** The permalink of a comment on `postId`; `articleKey` is the `_id` the article
      lookup by `postId` found, if any (the lookup is only made for a non-zero id). */
  function Permalink(postId: int, articleKey: Option<string>): string {
    if postId != 0 then
      if articleKey.Some? then ArticlePrefix + articleKey.value else ""
    else AboutPage
  }

  /** The article storage key an article permalink names. */
  function ArticleKeyOf(link: string): Option<string> {
    if |ArticlePrefix| <= |link| && link[..|ArticlePrefix|] == ArticlePrefix then Some(link[|ArticlePrefix|..])
    else None
  }

  /** A comment on an article links to exactly the article the lookup found; the about page
      and a failed lookup name no article; the link is empty exactly when the lookup failed. */
  lemma PermalinkNamesArticle(postId: int, articleKey: Option<string>)
    ensures ArticleKeyOf(Permalink(postId, articleKey)) == (if postId != 0 then articleKey else None)
    ensures Permalink(postId, articleKey) == "" <==> postId != 0 && articleKey.None?
    ensures postId == 0 ==> Permalink(postId, articleKey) == AboutPage
  {
  }

  datatype MailKind = NewComment | ReplyNotice

  /** A mail: recipient, kind, and what its text carries (commenter, content, permalink). */
  datatype Mail = Mail(to: string, kind: MailKind, commenter: string, content: string, link: string)

  /** The mails sent for new comment `c` with permalink `link`; `parent` is what the
      lookup of `c.pid` returned (the lookup is only made when `c.pid` is non-zero). */
  function Notifications(c: Comment, link: string, parent: Option<Comment>): (mails: seq<Mail>)
    ensures 1 <= |mails| <= 2
    ensures mails[0].to == OwnerAddress && mails[0].kind == NewComment
    ensures |mails| == 2 <==> c.pid != 0 && parent.Some?
    ensures |mails| == 2 ==> mails[1].to == parent.value.author.email && mails[1].kind == ReplyNotice
    ensures forall i :: 0 <= i < |mails| ==>
      mails[i].commenter == c.author.name && mails[i].content == c.content && mails[i].link == link
  {
    var owner := Mail(OwnerAddress, NewComment, c.author.name, c.content, link);
    if c.pid != 0 && parent.Some? then
      [owner, Mail(parent.value.author.email, ReplyNotice, c.author.name, c.content, link)]
    else [owner]
  }

  /** The recipients of the mails, in sending order. */
  function Recipients(mails: seq<Mail>): (r: seq<string>)
    ensures |r| == |mails| && forall i :: 0 <= i < |mails| ==> r[i] == mails[i].to
  {
    if |mails| == 0 then [] else [mails[0].to] + Recipients(mails[1..])
  }

  /** With the parent looked up in the store: the owner always receives the first mail, and
      a second goes to an author of a stored comment with id `c.pid` exactly when `c.pid` is
      non-zero and such a comment exists. */
  lemma ReplyReachesParentAuthor(c: Comment, link: string, store: seq<Comment>)
    ensures var r := Recipients(Notifications(c, link, FindComment(store, c.pid)));
      && r[0] == OwnerAddress
      && (|r| == 2 <==> c.pid != 0 && exists i :: 0 <= i < |store| && store[i].id == c.pid)
      && (|r| == 2 ==> exists i :: 0 <= i < |store| && store[i].id == c.pid && r[1] == store[i].author.email)
  {
  }
}
