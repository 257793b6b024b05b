/** The four Sequelize models of the relational backend (User, Post, Comment, PostLike):
    their records, their field constraints, and the User model's password hooks,
    `toJSON` and `validatePassword`. */
module Models {
  import opened Common
  import Text

  /** The category values the Post model accepts; the first one is its default. */
  const Gallery: string := "갤러리"
  const Video: string := "영상"
  const FaithSharing: string := "신앙나눔"
  const DefaultCategory: string := Gallery

  predicate IsCategory(c: string) {
    c == Gallery || c == Video || c == FaithSharing
  }

  /** The library validators the models use (`isUrl`, `isEmail`), supplied from outside. */
  datatype Validators = Validators(isUrl: string -> bool, isEmail: string -> bool)

  /** bcrypt, supplied from outside: `hash` of a plaintext and `compare(plaintext, digest)`. */
  datatype Crypto = Crypto(hash: string -> string, compare: (string, string) -> bool)

  /** Sequelize's `notEmpty` validator rejects the empty string and white space only. */
  predicate NotEmpty(s: string) {
    !Text.IsBlank(s)
  }

  datatype User = User(id: int, username: string, email: string, password: string)

  /** `description` is the one nullable column (`None` is SQL NULL). `createdAt` is the
      value of the store's creation counter when the row was inserted. */
  datatype Post = Post(id: int, title: string, description: Option<string>, imageUrl: string,
                       category: string, authorId: int, authorName: string, likes: int,
                       createdAt: nat)

  datatype Comment = Comment(id: int, postId: int, userId: int, userName: string,
                             content: string, createdAt: nat)

  /** One row of the like ledger. The model declares no uniqueness on the pair. */
  datatype PostLike = PostLike(postId: int, userId: int)

  /** The Post model's validators: non-empty title, URL image, category in the list. */
  predicate ValidPost(v: Validators, p: Post) {
    NotEmpty(p.title) && v.isUrl(p.imageUrl) && IsCategory(p.category)
  }

  /** The User model's validators, applied to the plaintext before the create hook. */
  predicate ValidUserFields(v: Validators, username: string, email: string, password: string) {
    3 <= |username| <= 50 && v.isEmail(email) && 6 <= |password| <= 100
  }

  /** The Comment model's validator on `content`. */
  predicate ValidComment(c: Comment) {
    NotEmpty(c.content)
  }

  /** The stored password after the `beforeCreate` hook: a present password is hashed. */
  function HashedOnCreate(c: Crypto, password: string): (r: string)
    ensures password != "" ==> r == c.hash(password)
    ensures password == "" ==> r == password
  {
    if password != "" then c.hash(password) else password
  }

  /** A JSON attribute value of a serialised user. */
  datatype JsonValue = JInt(i: int) | JStr(s: string)

  /** The attributes of a user row, by column name. */
  function Attributes(u: User): map<string, JsonValue> {
    map["id" := JInt(u.id), "username" := JStr(u.username), "email" := JStr(u.email),
        "password" := JStr(u.password)]
  }

  /** A User model instance: its current values, and whether `password` was assigned a
      different value since the row was loaded (Sequelize's `changed('password')`). */
  class UserInstance {
    var dataValues: User
    var passwordChanged: bool

    constructor (u: User)
      ensures dataValues == u && !passwordChanged
    {
      dataValues := u;
      passwordChanged := false;
    }

    /** `user.password = p`: the change flag is raised only when the value differs. */
    method SetPassword(p: string)
      modifies this
      ensures dataValues == old(dataValues).(password := p)
      ensures passwordChanged == (old(passwordChanged) || p != old(dataValues.password))
    {
      if p != dataValues.password {
        passwordChanged := true;
      }
      dataValues := dataValues.(password := p);
    }

    /** The `beforeCreate` hook: overwrites a present password with its hash. */
    method BeforeCreate(c: Crypto)
      modifies this
      ensures dataValues == old(dataValues).(password := HashedOnCreate(c, old(dataValues.password)))
      ensures passwordChanged == old(passwordChanged)
    {
      if dataValues.password != "" {
        dataValues := dataValues.(password := c.hash(dataValues.password));
      }
    }

    /** The `beforeUpdate` hook: re-hashes the password only when it was changed;
        otherwise the stored digest is left exactly as it is. */
    method BeforeUpdate(c: Crypto)
      modifies this
      ensures old(passwordChanged) ==> dataValues == old(dataValues).(password := c.hash(old(dataValues.password)))
      ensures !old(passwordChanged) ==> dataValues == old(dataValues)
      ensures passwordChanged == old(passwordChanged)
    {
      if passwordChanged {
        dataValues := dataValues.(password := c.hash(dataValues.password));
      }
    }

    /** `validatePassword(p)`: bcrypt's comparison of `p` with the stored digest. */
    method ValidatePassword(c: Crypto, p: string) returns (ok: bool)
      ensures ok == c.compare(p, dataValues.password)
    {
      ok := c.compare(p, dataValues.password);
    }

    /** `toJSON()`: a copy of the attributes with `password` deleted; every other
        attribute is kept with its value. */
    method ToJson() returns (values: map<string, JsonValue>)
      ensures "password" !in values
      ensures values.Keys == {"id", "username", "email"}
      ensures forall k :: k in values ==> values[k] == Attributes(dataValues)[k]
    {
      values := Attributes(dataValues);
      values := values - {"password"};
    }
  }
}
