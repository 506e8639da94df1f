/** Optional values, and results that may be an errno. */
module Common {

  datatype Option<+T> = None | Some(value: T)

  datatype Errno =
    | EINVAL
    | ENAMETOOLONG
    | ENOENT
    | ENOTDIR
    | ELOOP
    | EPERM
    | EACCES
    | EFAULT
    | ENOMEM
    | E2BIG

  datatype Result<+T> = Ok(value: T) | Err(errno: Errno)

  function Min(x: nat, y: nat): nat {
    if x <= y then x else y
  }

  function Max(x: nat, y: nat): nat {
    if x <= y then y else x
  }

  lemma {:induction false} Regroup<T>(a: seq<T>, b: seq<T>, c: seq<T>)
    ensures (a + b) + c == a + (b + c)
  {
  }
}
