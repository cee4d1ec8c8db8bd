/** The records of backend/users/models.py: the custom user, whose login identity
    is the e-mail address, and the Follow relation between two users. */
module UserModels {
  import opened Wrappers
  import opened Text
  import opened Sorting

  type UserId = int

  /** CustomUser. `isSuperuser` is Django's `is_superuser`; the avatar is a
      reference to a stored image, or none. */
  datatype User = User(
    id: UserId,
    email: string,
    username: string,
    firstName: string,
    lastName: string,
    avatar: Option<string>,
    isSuperuser: bool)

  /** Follow: `user` subscribes to the recipes of `following`. */
  datatype Follow = Follow(user: UserId, following: UserId)

  /** The user table: every row is stored under its own id, and no two users
      share an e-mail address or a username (both columns are unique). */
  ghost predicate UsersWellFormed(users: map<UserId, User>) {
    && (forall k :: k in users ==> users[k].id == k)
    && (forall a, b :: a in users && b in users && a != b ==>
          users[a].email != users[b].email && users[a].username != users[b].username)
  }

  /** `CustomUser.__str__`: first name, last name and the e-mail address in
      parentheses. */
  function UserStr(u: User): (s: string)
    ensures StartsWith(s, u.firstName + " " + u.lastName + " (")
    ensures |s| >= 4 && s[|s| - 1] == ')'
  {
    u.firstName + " " + u.lastName + " (" + u.email + ")"
  }

  /** The e-mail address can be read back from the string form: it is the text
      after the last `(`, without the closing parenthesis, whenever the address
      itself holds no `(`. */
  lemma UserStrShowsEmail(u: User)
    requires '(' !in u.email
    ensures var s := UserStr(u); LastPart(s[..|s| - 1], '(') == u.email
  {
    var s := UserStr(u);
    var front := u.firstName + " " + u.lastName + " ";
    assert s[..|s| - 1] == front + "(" + u.email;
    LastPartAfter(front, '(', u.email);
  }

  /** `Follow.__str__`: the string forms of both users, separated by a space. */
  function FollowStr(follower: User, author: User): (s: string)
    ensures StartsWith(s, UserStr(follower) + " ")
    ensures |s| > |UserStr(author)| && s[|s| - |UserStr(author)|..] == UserStr(author)
  {
    UserStr(follower) + " " + UserStr(author)
  }

  /** Django's `get_full_name()`: first and last name joined by a space, with
      surrounding whitespace removed. */
  function FullName(u: User): string {
    Strip(u.firstName + " " + u.lastName)
  }

  /** `Meta.ordering = ['last_name', 'first_name']`: `a` may come before `b`. */
  predicate UserPrecedes(a: User, b: User) {
    || (a.lastName != b.lastName && LexLe(a.lastName, b.lastName))
    || (a.lastName == b.lastName && LexLe(a.firstName, b.firstName))
  }

  /** Ordering by last name, then first name, is a total preorder. */
  lemma UserPrecedesIsTotalPreorder()
    ensures TotalPreorder(UserPrecedes)
  {
    forall a: User, b: User ensures UserPrecedes(a, b) || UserPrecedes(b, a) {
      LexLeTotal(a.lastName, b.lastName);
      LexLeTotal(a.firstName, b.firstName);
    }
    forall a: User, b: User, c: User | UserPrecedes(a, b) && UserPrecedes(b, c)
      ensures UserPrecedes(a, c)
    {
      if a.lastName == b.lastName && b.lastName == c.lastName {
        LexLeTransitive(a.firstName, b.firstName, c.firstName);
      } else {
        LexLeReflexive(a.lastName);
        LexLeReflexive(b.lastName);
        LexLeTransitive(a.lastName, b.lastName, c.lastName);
        LexLeAntisymmetricImp(a.lastName, b.lastName);
        LexLeAntisymmetricImp(b.lastName, c.lastName);
      }
    }
  }

  /** A user listing in the model's default order. */
  function OrderUsers(users: seq<User>): (r: seq<User>)
    ensures SortedBy(r, UserPrecedes)
    ensures multiset(r) == multiset(users)
  {
    UserPrecedesIsTotalPreorder();
    SortBySorted(users, UserPrecedes);
    SortBy(users, UserPrecedes)
  }
}
