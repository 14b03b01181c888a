/** The article document of models/Article.js and the body of a create or edit request. */
module ArticleModel {
  import Users

  type ArticleId = nat
  type UserId = Users.UserId

  /** A stored article. `user` is the owner; `likes`, `unlikes` and `blocks` hold the ids
      of the users who reacted, newest first. */
  datatype Article = Article(
    id: ArticleId,
    user: UserId,
    username: string,
    articleType: seq<string>,
    articleText: string,
    articleName: string,
    likes: seq<UserId>,
    unlikes: seq<UserId>,
    blocks: seq<UserId>,
    date: int)

  /** The fields a create or edit request supplies. */
  datatype ArticleForm = ArticleForm(articleText: string, articleName: string, articleType: seq<string>)
}
