/** The records the frontend's server actions read and write, and the
    database that holds them. Record identifiers are natural numbers handed
    out by the database. */
module Db {
  import opened Wrappers
  import AudioService
  import Endpoints

  type Id = nat

  /** One entry of a user's credit history. */
  datatype Transaction = Transaction(amount: int, kind: string, description: Option<string>, storyId: Option<Id>, balanceAfter: int)

  /** A user row: `transactions` is the user's credit history, oldest
      first. */
  datatype User = User(id: Id, clerkId: string, email: string, name: Option<string>, image: Option<string>,
                       credits: int, transactions: seq<Transaction>)

  datatype Image = Image(url: string, prompt: string, category: string)

  /** A story row, with its images. */
  datatype Story = Story(
    id: Id, userId: Id,
    title: string, content: string, topic: string, era: string, style: string, moral: string,
    timeline: seq<Endpoints.TimelineItem>, events: seq<string>, images: seq<Image>,
    isPublic: bool, publishedAt: Option<int>, viewCount: int, forkedFromId: Option<Id>,
    audioUrl: Option<string>, audioAlignment: Option<seq<AudioService.Event>>,
    createdAt: int)

  /** A like; the pair is unique, so the likes form a set. */
  datatype Like = Like(userId: Id, storyId: Id)

  datatype Comment = Comment(id: Id, content: string, userId: Id, storyId: Id, createdAt: int)

  /** The signed-in user as the identity provider reports it. */
  datatype ClerkUser = ClerkUser(id: string, firstName: Option<string>, lastName: Option<string>, imageUrl: Option<string>)

  /** JavaScript truthiness of an optional string. */
  predicate Truthy(s: Option<string>) {
    s.Some? && s.value != ""
  }

  /** The likes of one story. */
  function LikesOn(likes: set<Like>, storyId: Id): (on: set<Like>)
    ensures forall l :: l in on <==> l in likes && l.storyId == storyId
  {
    set l | l in likes && l.storyId == storyId
  }

  /** The ids of the stories `userId` owns. */
  function StoriesOf(stories: map<Id, Story>, userId: Id): (ids: set<Id>)
    ensures ids <= stories.Keys
    ensures forall s :: s in ids <==> s in stories && stories[s].userId == userId
  {
    set s | s in stories && stories[s].userId == userId
  }

  class Database {
    /** Users by their identity-provider id (`clerkId`, unique). */
    var users: map<string, User>
    var stories: map<Id, Story>
    var likes: set<Like>
    var comments: map<Id, Comment>
    /** The next identifier to hand out. */
    var nextId: nat
    /** The balance a user row gets when it is created without one. */
    const defaultCredits: int

    /** The constraints the schema enforces: keys agree with the records,
        identifiers are unique and allocated, likes and comments refer to
        existing stories, and a public story has a publication time. */
    ghost predicate Valid()
      reads this
    {
      && (forall c :: c in users ==> users[c].clerkId == c && users[c].id < nextId)
      && (forall c1, c2 :: c1 in users && c2 in users && users[c1].id == users[c2].id ==> c1 == c2)
      && (forall s :: s in stories ==> stories[s].id == s && s < nextId)
      && (forall s :: s in stories && stories[s].isPublic ==> stories[s].publishedAt.Some?)
      && (forall l :: l in likes ==> l.storyId in stories)
      && (forall m :: m in comments ==> comments[m].id == m && m < nextId && comments[m].storyId in stories)
    }

    constructor (defaultCredits: int)
      ensures Valid()
      ensures users == map[] && stories == map[] && likes == {} && comments == map[] && nextId == 0
      ensures this.defaultCredits == defaultCredits
    {
      users, stories, likes, comments, nextId := map[], map[], {}, map[], 0;
      this.defaultCredits := defaultCredits;
    }

    /** A fresh identifier. */
    method FreshId() returns (id: Id)
      modifies this`nextId
      ensures id == old(nextId) && nextId == id + 1
    {
      id := nextId;
      nextId := nextId + 1;
    }

    /** Is some user row's id `id`? */
    ghost predicate HasUserId(id: Id)
      reads this
    {
      exists c :: c in users && users[c].id == id
    }

    /** The user row whose id is `id`. */
    ghost function UserById(id: Id): (u: User)
      reads this
      requires HasUserId(id)
      ensures u in users.Values && u.id == id
    {
      var c :| c in users && users[c].id == id;
      users[c]
    }

    /** The number of likes of a story. */
    function LikeCount(storyId: Id): nat
      reads this
    {
      |LikesOn(likes, storyId)|
    }

    /** The number of comments on a story. */
    function CommentCount(storyId: Id): nat
      reads this
    {
      |set m | m in comments && comments[m].storyId == storyId|
    }
  }
}
