/** Captured side effects. The payload plays no part in delivery and attribution; hook and
    number say which effect of which hook this is, so that no two captured effects are equal. */
module Effects {
  datatype Effect = Effect(hook: nat, number: nat, timestamp: int)

  datatype Option<T> = None | Some(value: T)
}
