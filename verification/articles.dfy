/** The article routes of routes/api/articles.js that change the article collection:
    create, edit, delete, like, unlike and block. */
module Articles {
  import opened Http
  import opened ArticleModel
  import opened Reactions
  import Users

  const NotAuthorized := "User not authorized"
  const AccessDenied := "Unauthorized Access Denied"
  const AlreadyBlocked := "Article has already been blocked"
  const Removed := "Article removed"

  /** The messages of the request checks that fail, in declaration order (text, name, type);
      empty exactly when all three fields are present. */
  function FormErrors(f: ArticleForm): (errs: seq<string>)
    ensures errs == [] <==> f.articleText != "" && f.articleName != "" && f.articleType != []
    ensures |errs| <= 3
  {
    (if f.articleText == "" then ["Text is required"] else []) +
    (if f.articleName == "" then ["Name is required"] else []) +
    (if f.articleType == [] then ["Type is required"] else [])
  }

  /** The article collection. `nextId` stands for the database's id generator. */
  class ArticleStore {
    var articles: map<ArticleId, Article>
    var nextId: ArticleId

    /** Ids are below the generator and match the document; every article is well formed:
        no user has two block entries or two reactions. */
    ghost predicate Valid()
      reads this
    {
      forall id :: id in articles ==>
        id < nextId && articles[id].id == id && WellFormed(articles[id])
    }

    constructor ()
      ensures Valid() && articles == map[] && nextId == 0
    {
      articles := map[];
      nextId := 0;
    }

    /** POST /create: validate, look up the author (a missing author throws, answered 500),
        then store an article owned by the requester, named after the author, with no
        reactions and no blocks. */
    method Create(requester: UserId, form: ArticleForm, users: map<UserId, Users.User>, now: int)
      returns (r: Response<Article>)
      requires Valid()
      modifies this
      ensures Valid()
      ensures FormErrors(form) != [] ==>
        r == Err(BadRequest, FormErrors(form)) && articles == old(articles) && nextId == old(nextId)
      ensures FormErrors(form) == [] && requester !in users ==>
        r == Err(ServerError, [ServerErrorText]) && articles == old(articles) && nextId == old(nextId)
      ensures r.Ok? <==> FormErrors(form) == [] && requester in users
      ensures r.Ok? ==>
        && old(nextId) !in old(articles) && nextId == old(nextId) + 1
        && articles == old(articles)[old(nextId) := r.body]
        && r.body.id == old(nextId)
        && r.body.user == requester
        && r.body.username == users[requester].firstname + " " + users[requester].lastname
        && r.body.articleText == form.articleText && r.body.articleName == form.articleName
        && r.body.articleType == form.articleType
        && r.body.likes == [] && r.body.unlikes == [] && r.body.blocks == []
        && r.body.date == now
    {
      var errs := FormErrors(form);
      if errs != [] {
        return Err(BadRequest, errs);
      }
      if requester !in users {
        return Err(ServerError, [ServerErrorText]);
      }
      var author := users[requester];
      var article := Article(nextId, requester, author.firstname + " " + author.lastname,
                             form.articleType, form.articleText, form.articleName, [], [], [], now);
      articles := articles[nextId := article];
      nextId := nextId + 1;
      r := Ok(article);
    }

    /** DELETE /:id: a missing article throws (500); only the owner may delete (401 otherwise). */
    method Delete(id: ArticleId, requester: UserId) returns (r: Response<string>)
      requires Valid()
      modifies this
      ensures Valid() && nextId == old(nextId)
      ensures id !in old(articles) ==>
        r == Err(ServerError, [ServerErrorText]) && articles == old(articles)
      ensures id in old(articles) && old(articles)[id].user != requester ==>
        r == Err(Unauthorized, [NotAuthorized]) && articles == old(articles)
      ensures r.Ok? <==> id in old(articles) && old(articles)[id].user == requester
      ensures r.Ok? ==> r.body == Removed && articles == old(articles) - {id}
    {
      if id !in articles {
        return Err(ServerError, [ServerErrorText]);
      }
      var article := articles[id];
      if article.user != requester {
        return Err(Unauthorized, [NotAuthorized]);
      }
      articles := articles - {id};
      r := Ok(Removed);
    }

    /** PUT /edit/:id: validate before the lookup, a missing article throws (500), only the
        owner may edit (400 otherwise); an edit replaces the text, the name and the types and
        nothing else. */
    method Edit(id: ArticleId, requester: UserId, form: ArticleForm) returns (r: Response<Article>)
      requires Valid()
      modifies this
      ensures Valid() && nextId == old(nextId)
      ensures FormErrors(form) != [] ==>
        r == Err(BadRequest, FormErrors(form)) && articles == old(articles)
      ensures FormErrors(form) == [] && id !in old(articles) ==>
        r == Err(ServerError, [ServerErrorText]) && articles == old(articles)
      ensures FormErrors(form) == [] && id in old(articles) && old(articles)[id].user != requester ==>
        r == Err(BadRequest, [AccessDenied]) && articles == old(articles)
      ensures r.Ok? <==> FormErrors(form) == [] && id in old(articles) && old(articles)[id].user == requester
      ensures r.Ok? ==>
        && articles == old(articles)[id := r.body]
        && r.body.articleText == form.articleText && r.body.articleName == form.articleName
        && r.body.articleType == form.articleType
        && r.body.(articleText := old(articles)[id].articleText, articleName := old(articles)[id].articleName,
                   articleType := old(articles)[id].articleType) == old(articles)[id]
    {
      var errs := FormErrors(form);
      if errs != [] {
        return Err(BadRequest, errs);
      }
      if id !in articles {
        return Err(ServerError, [ServerErrorText]);
      }
      var article := articles[id];
      if article.user != requester {
        return Err(BadRequest, [AccessDenied]);
      }
      article := article.(articleText := form.articleText);
      article := article.(articleName := form.articleName);
      article := article.(articleType := form.articleType);
      assert forall v :: ReactionCount(article, v) == ReactionCount(articles[id], v);
      articles := articles[id := article];
      r := Ok(article);
    }

    /** PUT /like/:id: a missing article throws (500, nothing changes); otherwise the
        article becomes Liked(article, requester) and is sent back. */
    method Like(id: ArticleId, requester: UserId) returns (r: Response<Article>)
      requires Valid()
      modifies this
      ensures Valid() && nextId == old(nextId)
      ensures id !in old(articles) ==>
        r == Err(ServerError, [ServerErrorText]) && articles == old(articles)
      ensures id in old(articles) ==>
        r == Ok(Liked(old(articles)[id], requester)) && articles == old(articles)[id := r.body]
    {
      if id !in articles {
        return Err(ServerError, [ServerErrorText]);
      }
      var article := articles[id];
      ReactionsKeepWellFormed(article, requester);
      if requester in article.likes {
        article := article.(likes := Without(article.likes, requester));
      } else if requester in article.unlikes {
        article := article.(unlikes := Without(article.unlikes, requester));
        article := article.(likes := [requester] + article.likes);
      } else {
        article := article.(likes := [requester] + article.likes);
      }
      articles := articles[id := article];
      r := Ok(article);
    }

    /** PUT /unlike/:id: the mirror of Like. */
    method Unlike(id: ArticleId, requester: UserId) returns (r: Response<Article>)
      requires Valid()
      modifies this
      ensures Valid() && nextId == old(nextId)
      ensures id !in old(articles) ==>
        r == Err(ServerError, [ServerErrorText]) && articles == old(articles)
      ensures id in old(articles) ==>
        r == Ok(Unliked(old(articles)[id], requester)) && articles == old(articles)[id := r.body]
    {
      if id !in articles {
        return Err(ServerError, [ServerErrorText]);
      }
      var article := articles[id];
      ReactionsKeepWellFormed(article, requester);
      if requester in article.unlikes {
        article := article.(unlikes := Without(article.unlikes, requester));
      } else if requester in article.likes {
        article := article.(likes := Without(article.likes, requester));
        article := article.(unlikes := [requester] + article.unlikes);
      } else {
        article := article.(unlikes := [requester] + article.unlikes);
      }
      articles := articles[id := article];
      r := Ok(article);
    }

    /** PUT /block/:id: a missing article throws (500); a requester who already has a block
        entry is refused (400, nothing changes); otherwise exactly one block is prepended and
        the new block list is sent back. */
    method Block(id: ArticleId, requester: UserId) returns (r: Response<seq<UserId>>)
      requires Valid()
      modifies this
      ensures Valid() && nextId == old(nextId)
      ensures id !in old(articles) ==>
        r == Err(ServerError, [ServerErrorText]) && articles == old(articles)
      ensures id in old(articles) && requester in old(articles)[id].blocks ==>
        r == Err(BadRequest, [AlreadyBlocked]) && articles == old(articles)
      ensures r.Ok? <==> id in old(articles) && requester !in old(articles)[id].blocks
      ensures r.Ok? ==>
        && r.body == [requester] + old(articles)[id].blocks
        && multiset(r.body)[requester] == 1
        && articles == old(articles)[id := old(articles)[id].(blocks := r.body)]
    {
      if id !in articles {
        return Err(ServerError, [ServerErrorText]);
      }
      var article := articles[id];
      if requester in article.blocks {
        return Err(BadRequest, [AlreadyBlocked]);
      }
      BlockKeepsNoRepeats(article.blocks, requester);
      article := article.(blocks := [requester] + article.blocks);
      assert forall v :: ReactionCount(article, v) == ReactionCount(articles[id], v);
      articles := articles[id := article];
      r := Ok(article.blocks);
    }
  }
}
